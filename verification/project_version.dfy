/**
  The name logic of the "Save Project Version" operator (`invoke` of
  VF_saveProjectVersion.py): from the open file's path, the preferences, the
  version directory's listing and the clock, the paths the operator saves to,
  creates and renames.
 */
module ProjectVersion {
  import opened Optional
  import opened PyStr
  import opened PyInt
  import opened PyPath
  import opened Serial
  import opened Alphanum
  import opened Substitution
  import opened Convert

  /** The three naming schemes of the `version_type` preference. */
  datatype VersionType = SerialNumber | DateTime | Alphanumeric

  /** The add-on preferences the operator reads; `versionPath` is taken as already
      resolved by `bpy.path.abspath`. */
  datatype Preferences = Preferences(
    versionType: VersionType,
    versionFormat: int,
    separator: string,
    versionPath: string)

  /** What the operator does with the names it builds. */
  datatype Plan =
    | SaveDialog
      // the file was never saved: open Blender's save dialog instead (lines 43-46)
    | SaveCopy(versionDir: string, target: string)
      // create `versionDir` if missing and save a copy of the project at `target`
    | SaveAndArchive(versionDir: string, saveAs: string, moveFrom: string, moveTo: string)
      // create `versionDir`, save the project as `saveAs`, then rename `moveFrom` to `moveTo`
    | Failed(error: Error)
      // the operator raises before saving anything

  /** `format(version_format_preference, '02')`: the format specification used for every number. */
  function VersionFormat(p: int): (r: string)
    ensures IsSimpleSpec(r)
    ensures ParseSpec(r) == if 0 <= p <= 9 then Spec(true, p) else if p >= 10 then Spec(false, p) else Spec(false, -p)
  {
    TwoDigitSpec(p);
    FormatInt(p, Spec(true, 2))
  }

  /** Lines 72-81: the configured directory, or for a path of at most one character
      a folder named after the project next to the file. */
  function VersionDir(filepath: string, configured: string, projectName: string): (r: string)
    ensures |configured| > 1 ==> r == configured
    ensures |configured| <= 1 && '/' !in projectName ==>
      Basename(r) == projectName && StartsWith(r, Dirname(filepath))
    ensures var home := Dirname(filepath);
      |configured| <= 1 && '/' !in projectName && |home| > 0 && home[|home| - 1] != '/' ==>
      Dirname(r) == home
  {
    var home := Dirname(filepath);
    if |configured| > 1 then configured
    else if '/' in projectName then Join(home, projectName)
    else
      BasenameOfJoin(home, projectName);
      if |home| > 0 && home[|home| - 1] != '/' then
        DirnameOfJoin(home, projectName);
        Join(home, projectName)
      else
        Join(home, projectName)
  }

  /** Lines 89-102: the candidates of the listing and the next serial formatted. */
  function NextNumber(filepath: string, prefs: Preferences, listing: seq<string>): string
    requires |ProjectName(filepath)| > 0
  {
    var name := ProjectName(filepath);
    SaveNumberFromFiles(Candidates(listing, name), name, ParseSpec(VersionFormat(prefs.versionFormat)))
  }

  /** The serial scheme, lines 88-105 and 150-151. `str.split` with an empty project
      name raises `ValueError` as soon as one candidate has to be read. */
  function SerialPlan(filepath: string, prefs: Preferences, listing: seq<string>, clock: nat -> Stamp): (r: Plan)
    ensures r.Failed? || r.SaveCopy?
    ensures r.Failed? <==> ProjectName(filepath) == [] && exists f :: f in listing && EndsWith(Lower(f), ".blend")
    ensures r.SaveCopy? ==> EndsWith(r.target, ".blend")
  {
    EmptyNameCandidates(listing);
    var name := ProjectName(filepath);
    var versionDir := VersionDir(filepath, prefs.versionPath, name);
    var files := Candidates(listing, name);
    if |name| == 0 && |files| > 0 then Failed(EmptySeparator)
    else
      var number := SaveNumberFromFiles(files, name, ParseSpec(VersionFormat(prefs.versionFormat)));
      var vars := Vars(name, prefs.separator, None, None);
      var path := Join(versionDir, "{project}{separator}" + number);
      Blend(path, vars, clock(0));
      SaveCopy(versionDir, ConvertVariables(path + ".blend", vars, clock(0)))
  }

  /** The date-time scheme, lines 107-109 and 150-151. */
  function DateTimePlan(filepath: string, prefs: Preferences, clock: nat -> Stamp): (r: Plan)
    ensures r.SaveCopy? && EndsWith(r.target, ".blend")
  {
    var name := ProjectName(filepath);
    var versionDir := VersionDir(filepath, prefs.versionPath, name);
    var vars := Vars(name, prefs.separator, None, None);
    var path := Join(versionDir, "{project}{separator}{date}-{time}");
    Blend(path, vars, clock(0));
    SaveCopy(versionDir, ConvertVariables(path + ".blend", vars, clock(0)))
  }

  /** The alphanumeric scheme, lines 52-66, 111-113 and 128-141: save under the new
      name in the project's directory, then move the file the old name denotes into
      the version directory. Three conversions, three clock readings. */
  function AlphanumPlan(filepath: string, prefs: Preferences, incrementMajor: bool, clock: nat -> Stamp): (r: Plan)
    ensures r.SaveAndArchive?
    ensures EndsWith(r.saveAs, ".blend") && EndsWith(r.moveFrom, ".blend") && EndsWith(r.moveTo, ".blend")
  {
    var d := Derive(ProjectName(filepath), incrementMajor, VersionFormat(prefs.versionFormat));
    var versionDir := VersionDir(filepath, prefs.versionPath, d.project);
    var vars := Vars(d.project, prefs.separator, Some(d.version.num), Some(d.version.chr));
    var newPath := Join(Dirname(filepath), "{project}{num}{chr}");
    Blend(newPath, vars, clock(0));
    var saveAs := ConvertVariables(newPath + ".blend", vars, clock(0));
    var oldPath := Join(saveAs, d.project);
    Blend(oldPath, vars, clock(1));
    var moveFrom := ConvertVariables(oldPath + ".blend", vars, clock(1));
    var archived := Join(versionDir, d.project);
    Blend(archived, vars, clock(2));
    var moveTo := ConvertVariables(archived + ".blend", vars, clock(2));
    SaveAndArchive(versionDir, saveAs, moveFrom, moveTo)
  }

  /** Every path the operator converts still ends in `.blend` afterwards. */
  lemma Blend(path: string, vars: Vars, now: Stamp)
    ensures EndsWith(ConvertVariables(path + ".blend", vars, now), ".blend")
  {
    KeepsExtension(path, vars, now);
    SuffixOfConcat(ConvertVariables(path, vars, now), ".blend");
  }

  /** `invoke`: `clock(k)` is what the `k`-th conversion reads as the current date and time. */
  function Invoke(filepath: string, prefs: Preferences, incrementMajor: bool,
                  listing: seq<string>, clock: nat -> Stamp): (r: Plan)
    ensures r == SaveDialog <==> '/' !in filepath
    ensures r.Failed? <==>
      && '/' in filepath && prefs.versionType == SerialNumber && ProjectName(filepath) == []
      && exists f :: f in listing && EndsWith(Lower(f), ".blend")
    ensures r.SaveCopy? ==> prefs.versionType != Alphanumeric
    ensures r.SaveAndArchive? <==> '/' in filepath && prefs.versionType == Alphanumeric
    ensures r.SaveCopy? ==> EndsWith(r.target, ".blend")
    ensures r.SaveAndArchive? ==>
      EndsWith(r.saveAs, ".blend") && EndsWith(r.moveFrom, ".blend") && EndsWith(r.moveTo, ".blend")
  {
    if |Dirname(filepath)| < 1 then SaveDialog
    else
      match prefs.versionType
      case SerialNumber => SerialPlan(filepath, prefs, listing, clock)
      case DateTime => DateTimePlan(filepath, prefs, clock)
      case Alphanumeric => AlphanumPlan(filepath, prefs, incrementMajor, clock)
  }

  /** Every part of the plan built from brace-free inputs is free of braces too. */
  lemma PlainInputs(filepath: string, prefs: Preferences)
    requires Plain(filepath) && Plain(prefs.versionPath)
    ensures Plain(Dirname(filepath)) && Plain(ProjectName(filepath))
    ensures Plain(VersionDir(filepath, prefs.versionPath, ProjectName(filepath)))
  {
    PartsAvoid(filepath, '{');
    JoinAvoids(Dirname(filepath), ProjectName(filepath), '{');
  }

  lemma PlainNumber(n: int, spec: Spec)
    ensures Plain(FormatInt(n, spec))
  {
    FormatChars(n, spec);
  }

  /** A relative name joined behind `DirPrefix`: the same as `join`. */
  lemma JoinName(dir: string, name: string)
    requires |name| > 0 && name[0] != '/'
    ensures Join(dir, name) == DirPrefix(dir) + name
  {
  }

  /** A template starting with a placeholder is a relative name. */
  lemma JoinTemplate(dir: string, t: string)
    requires |t| > 0 && t[0] == '{'
    ensures Join(dir, t) == DirPrefix(dir) + t
  {
  }

  /** The conversion of a serial path with brace-free parts. */
  lemma SerialConvert(dir: string, vars: Vars, number: string, now: Stamp)
    requires Plain(dir) && Plain(vars.project) && Plain(vars.separator) && Plain(number)
    requires |vars.project| > 0 && '/' !in vars.project
    ensures ConvertVariables(Join(dir, "{project}{separator}" + number) + ".blend", vars, now)
      == Join(dir, vars.project + vars.separator + number) + ".blend"
  {
    var pre := DirPrefix(dir);
    JoinTemplate(dir, "{project}{separator}" + number);
    SerialName(pre, number, vars, now);
    assert vars.project[0] in vars.project;
    JoinName(dir, vars.project + vars.separator + number);
  }

  /** The conversion of a date-time path with brace-free parts. */
  lemma DateTimeConvert(dir: string, vars: Vars, now: Stamp)
    requires Plain(dir) && Plain(vars.project) && Plain(vars.separator)
    requires Plain(now.date) && Plain(now.time)
    requires |vars.project| > 0 && '/' !in vars.project
    ensures ConvertVariables(Join(dir, "{project}{separator}{date}-{time}") + ".blend", vars, now)
      == Join(dir, vars.project + vars.separator + now.date + "-" + now.time) + ".blend"
  {
    var pre := DirPrefix(dir);
    JoinTemplate(dir, "{project}{separator}{date}-{time}");
    DateTimeName(pre, vars, now);
    assert vars.project[0] in vars.project;
    JoinName(dir, vars.project + vars.separator + now.date + "-" + now.time);
  }

  /** The serial scheme saves a copy named project name, separator and next serial
      into the version directory. */
  lemma SerialTarget(filepath: string, prefs: Preferences, incrementMajor: bool,
                     listing: seq<string>, clock: nat -> Stamp)
    requires '/' in filepath && prefs.versionType == SerialNumber
    requires |ProjectName(filepath)| > 0
    requires Plain(filepath) && Plain(prefs.versionPath) && Plain(prefs.separator)
    ensures var name := ProjectName(filepath);
      var dir := VersionDir(filepath, prefs.versionPath, name);
      Invoke(filepath, prefs, incrementMajor, listing, clock)
        == SaveCopy(dir, Join(dir, name + prefs.separator + NextNumber(filepath, prefs, listing)) + ".blend")
  {
    var name := ProjectName(filepath);
    var dir := VersionDir(filepath, prefs.versionPath, name);
    var number := NextNumber(filepath, prefs, listing);
    PlainInputs(filepath, prefs);
    ProjectNameRelative(filepath);
    PlainNextNumber(filepath, prefs, listing);
    SerialInvoke(filepath, prefs, incrementMajor, listing, clock);
    SerialConvert(dir, Vars(name, prefs.separator, None, None), number, clock(0));
  }

  lemma PlainNextNumber(filepath: string, prefs: Preferences, listing: seq<string>)
    requires |ProjectName(filepath)| > 0
    ensures Plain(NextNumber(filepath, prefs, listing))
  {
    var name := ProjectName(filepath);
    PlainNumber(Highest(Serials(Candidates(listing, name), name)) + 1, ParseSpec(VersionFormat(prefs.versionFormat)));
  }

  lemma SerialInvoke(filepath: string, prefs: Preferences, incrementMajor: bool,
                     listing: seq<string>, clock: nat -> Stamp)
    requires '/' in filepath && prefs.versionType == SerialNumber
    requires |ProjectName(filepath)| > 0
    ensures var name := ProjectName(filepath);
      var dir := VersionDir(filepath, prefs.versionPath, name);
      var vars := Vars(name, prefs.separator, None, None);
      var t := Join(dir, "{project}{separator}" + NextNumber(filepath, prefs, listing)) + ".blend";
      Invoke(filepath, prefs, incrementMajor, listing, clock) == SaveCopy(dir, ConvertVariables(t, vars, clock(0)))
  {
  }

  /** The date-time scheme saves a copy named project name, separator, date, `-` and
      time into the version directory. */
  lemma DateTimeTarget(filepath: string, prefs: Preferences, incrementMajor: bool,
                       listing: seq<string>, clock: nat -> Stamp)
    requires '/' in filepath && prefs.versionType == DateTime
    requires |ProjectName(filepath)| > 0
    requires Plain(filepath) && Plain(prefs.versionPath) && Plain(prefs.separator)
    requires Plain(clock(0).date) && Plain(clock(0).time)
    ensures var name := ProjectName(filepath);
      var dir := VersionDir(filepath, prefs.versionPath, name);
      Invoke(filepath, prefs, incrementMajor, listing, clock)
        == SaveCopy(dir, Join(dir, name + prefs.separator + clock(0).date + "-" + clock(0).time) + ".blend")
  {
    var name := ProjectName(filepath);
    PlainInputs(filepath, prefs);
    ProjectNameRelative(filepath);
    DateTimeConvert(VersionDir(filepath, prefs.versionPath, name), Vars(name, prefs.separator, None, None), clock(0));
  }

  /** Saving the copy the serial scheme names and invoking again on the listing that
      now holds it: a number of four or more digits is read back and the next number is
      one more; a shorter one — every number below 1000 under the default width of
      three — is not read back, so the same name comes out again and the saved copy
      is overwritten. */
  lemma SerialRescan(filepath: string, prefs: Preferences, listing: seq<string>)
    requires |ProjectName(filepath)| > 0 && 0 <= prefs.versionFormat <= 9
    requires '\n' !in prefs.separator
    requires |prefs.separator| == 0 || !IsDigit(prefs.separator[|prefs.separator| - 1])
    requires !Occurs(prefs.separator + NextNumber(filepath, prefs, listing), ProjectName(filepath))
    ensures var n := NextNumber(filepath, prefs, listing);
      var saved := ProjectName(filepath) + prefs.separator + n + ".blend";
      var n' := NextNumber(filepath, prefs, listing + [saved]);
      && AllDigits(n) && AllDigits(n')
      && (|n| >= 4 ==> DecimalValue(n') == DecimalValue(n) + 1)
      && (|n| < 4 ==> n' == n)
  {
    var name := ProjectName(filepath);
    var files := Candidates(listing, name);
    var n := NextNumber(filepath, prefs, listing);
    var saved := name + prefs.separator + n + ".blend";
    GeneratedIsCandidate(name, prefs.separator, n);
    CandidatesAppend(listing, saved, name);
    RescanAfterSave(files, name, prefs.separator, prefs.versionFormat);
  }

  /** The brace-free parts of an alphanumeric version. */
  lemma PlainVersion(p: Parts, major: bool, fmt: string)
    requires |p.digits| == 3 && AllDigits(p.digits) && IsLower(p.letter) && IsSimpleSpec(fmt)
    requires major || p.letter != 'z'
    ensures var v := Increment(p, major, fmt);
      && Plain(v.num) && Plain(v.chr) && |v.num| > 0 && v.num[0] != '/' && |v.chr| == 1
      && v.num[0] != '.' && v.chr[0] != '/'
      && forall i :: 0 <= i < |v.num| ==> v.num[i] != '/'
  {
    var v := Increment(p, major, fmt);
    if major {
      FormatChars(DecimalValue(p.digits) + 1, ParseSpec(fmt));
      PlainNumber(DecimalValue(p.digits) + 1, ParseSpec(fmt));
    } else {
      assert v.chr[0] != '{';
    }
  }

  /** A versioned name under the alphanumeric scheme: the project is saved in its own
      directory under the stripped name with the new number and letter; then the path
      made of that new file's path, `/` and the stripped name is moved to the stripped
      name in the version directory — neither of which is the file that was open. */
  lemma AlphanumTargets(filepath: string, prefs: Preferences, incrementMajor: bool,
                        listing: seq<string>, clock: nat -> Stamp, p: Parts)
    requires '/' in filepath && prefs.versionType == Alphanumeric
    requires Plain(filepath) && Plain(prefs.versionPath)
    requires SplitVersion(ProjectName(filepath)) == Some(p)
    requires incrementMajor || p.letter != 'z'
    ensures var v := Increment(p, incrementMajor, VersionFormat(prefs.versionFormat));
      var dir := VersionDir(filepath, prefs.versionPath, p.prefix);
      var saveAs := Join(Dirname(filepath), p.prefix + v.num + v.chr) + ".blend";
      Invoke(filepath, prefs, incrementMajor, listing, clock)
        == SaveAndArchive(dir, saveAs, Join(saveAs, p.prefix) + ".blend", Join(dir, p.prefix) + ".blend")
  {
    var fmt := VersionFormat(prefs.versionFormat);
    var v := Increment(p, incrementMajor, fmt);
    var vars := Vars(p.prefix, prefs.separator, Some(v.num), Some(v.chr));
    var dir := VersionDir(filepath, prefs.versionPath, p.prefix);
    var home := Dirname(filepath);
    AlphanumInvoke(filepath, prefs, incrementMajor, listing, clock);
    DeriveVersioned(ProjectName(filepath), incrementMajor, fmt, p);
    PrefixPlain(filepath, p);
    PlainVersion(p, incrementMajor, fmt);
    AlphanumSaveAs(home, vars, clock(0));
    PlainJoinBlend(home, p.prefix + v.num + v.chr);
    ArchivePaths(Join(home, p.prefix + v.num + v.chr) + ".blend", dir, p.prefix, vars, clock(1), clock(2));
  }

  /** The save path alone, which does not depend on the version directory. */
  lemma AlphanumSaveTarget(filepath: string, prefs: Preferences, incrementMajor: bool,
                           listing: seq<string>, clock: nat -> Stamp, p: Parts)
    requires '/' in filepath && prefs.versionType == Alphanumeric
    requires Plain(filepath)
    requires SplitVersion(ProjectName(filepath)) == Some(p)
    requires incrementMajor || p.letter != 'z'
    ensures var v := Increment(p, incrementMajor, VersionFormat(prefs.versionFormat));
      var r := Invoke(filepath, prefs, incrementMajor, listing, clock);
      r.SaveAndArchive? && r.saveAs == Join(Dirname(filepath), p.prefix + v.num + v.chr) + ".blend"
  {
    var fmt := VersionFormat(prefs.versionFormat);
    var v := Increment(p, incrementMajor, fmt);
    var vars := Vars(p.prefix, prefs.separator, Some(v.num), Some(v.chr));
    AlphanumInvoke(filepath, prefs, incrementMajor, listing, clock);
    DeriveVersioned(ProjectName(filepath), incrementMajor, fmt, p);
    PrefixPlain(filepath, p);
    PlainVersion(p, incrementMajor, fmt);
    AlphanumSaveAs(Dirname(filepath), vars, clock(0));
  }

  /** The rename source of a versioned alphanumeric save lies beneath the file just
      saved (`<new file>.blend/<stripped name>.blend`), a path under a regular file.
      The version folder plays no part in it. */
  lemma RenameUnderSaved(filepath: string, prefs: Preferences, incrementMajor: bool,
                         listing: seq<string>, clock: nat -> Stamp, p: Parts)
    requires '/' in filepath && prefs.versionType == Alphanumeric
    requires Plain(filepath)
    requires SplitVersion(ProjectName(filepath)) == Some(p)
    requires incrementMajor || p.letter != 'z'
    ensures var r := Invoke(filepath, prefs, incrementMajor, listing, clock);
      r.SaveAndArchive? && EndsWith(r.saveAs, ".blend") && StartsWith(r.moveFrom, r.saveAs + "/")
  {
    var fmt := VersionFormat(prefs.versionFormat);
    var v := Increment(p, incrementMajor, fmt);
    var vars := Vars(p.prefix, prefs.separator, Some(v.num), Some(v.chr));
    var saveAs := Join(Dirname(filepath), p.prefix + v.num + v.chr) + ".blend";
    AlphanumSaveTarget(filepath, prefs, incrementMajor, listing, clock, p);
    AlphanumInvoke(filepath, prefs, incrementMajor, listing, clock);
    DeriveVersioned(ProjectName(filepath), incrementMajor, fmt, p);
    PrefixPlain(filepath, p);
    PlainVersion(p, incrementMajor, fmt);
    PlainJoinBlend(Dirname(filepath), p.prefix + v.num + v.chr);
    assert Plain(saveAs);
    PlainJoinBlend(saveAs, p.prefix);
    PlainWhole(Join(saveAs, p.prefix) + ".blend", vars, clock(1));
    UnderFile(saveAs, p.prefix);
  }

  /** `join(f, name) + ".blend"` for a path `f` ending in `.blend` starts with `f/`. */
  lemma UnderFile(f: string, name: string)
    requires EndsWith(f, ".blend") && '/' !in name
    ensures StartsWith(Join(f, name) + ".blend", f + "/")
  {
    assert f[|f| - 1] == 'd';
    if |name| > 0 {
      assert name[0] in name;
    }
    assert Join(f, name) == f + "/" + name;
  }

  lemma AlphanumInvoke(filepath: string, prefs: Preferences, incrementMajor: bool,
                       listing: seq<string>, clock: nat -> Stamp)
    requires '/' in filepath && prefs.versionType == Alphanumeric
    ensures Invoke(filepath, prefs, incrementMajor, listing, clock) == AlphanumPlan(filepath, prefs, incrementMajor, clock)
  {
  }

  lemma DeriveVersioned(name: string, major: bool, fmt: string, p: Parts)
    requires IsSimpleSpec(fmt) && SplitVersion(name) == Some(p)
    ensures Derive(name, major, fmt) == Derived(p.prefix, Increment(p, major, fmt))
  {
  }

  /** The move of an alphanumeric save: both of its paths are brace-free, so the
      conversion leaves them as they are. */
  lemma ArchivePaths(saveAs: string, dir: string, prefix: string, vars: Vars, now1: Stamp, now2: Stamp)
    requires Plain(saveAs) && Plain(dir) && Plain(prefix)
    ensures ConvertVariables(Join(saveAs, prefix) + ".blend", vars, now1) == Join(saveAs, prefix) + ".blend"
    ensures ConvertVariables(Join(dir, prefix) + ".blend", vars, now2) == Join(dir, prefix) + ".blend"
  {
    PlainJoinBlend(saveAs, prefix);
    PlainWhole(Join(saveAs, prefix) + ".blend", vars, now1);
    PlainJoinBlend(dir, prefix);
    PlainWhole(Join(dir, prefix) + ".blend", vars, now2);
  }

  /** The stripped name of a brace-free path is brace-free and has no `/`, and so has
      the version directory built from it. */
  lemma PrefixPlain(filepath: string, p: Parts)
    requires Plain(filepath) && SplitVersion(ProjectName(filepath)) == Some(p)
    ensures Plain(p.prefix) && '/' !in p.prefix && Plain(Dirname(filepath))
    ensures forall configured :: Plain(configured) ==> Plain(VersionDir(filepath, configured, p.prefix))
  {
    var name := ProjectName(filepath);
    PartsAvoid(filepath, '{');
    ProjectNameRelative(filepath);
    PrefixAvoids(name, p.prefix, '{');
    PrefixAvoids(name, p.prefix, '/');
    forall configured | Plain(configured)
      ensures Plain(VersionDir(filepath, configured, p.prefix))
    {
      JoinAvoids(Dirname(filepath), p.prefix, '{');
    }
  }

  lemma PlainJoinBlend(dir: string, name: string)
    requires Plain(dir) && Plain(name)
    ensures Plain(Join(dir, name) + ".blend")
  {
    JoinAvoids(dir, name, '{');
  }

  /** The conversion of the alphanumeric save path with brace-free parts. */
  lemma AlphanumSaveAs(home: string, vars: Vars, now: Stamp)
    requires Plain(home) && Plain(vars.project) && '/' !in vars.project
    requires vars.num.Some? && Plain(vars.num.value) && |vars.num.value| > 0 && vars.num.value[0] != '/'
    requires vars.chr.Some? && Plain(vars.chr.value) && |vars.chr.value| > 0
    ensures ConvertVariables(Join(home, "{project}{num}{chr}") + ".blend", vars, now)
      == Join(home, vars.project + vars.num.value + vars.chr.value) + ".blend"
  {
    var pre := DirPrefix(home);
    var name := vars.project + vars.num.value + vars.chr.value;
    JoinTemplate(home, "{project}{num}{chr}");
    AlphanumName(pre, vars, now);
    if |vars.project| > 0 {
      assert vars.project[0] in vars.project;
    }
    assert name[0] != '/';
    JoinName(home, name);
  }

  /** The file an alphanumeric save writes has the stripped name, number and letter
      as its project name. */
  lemma SavedProjectName(filepath: string, prefs: Preferences, incrementMajor: bool,
                         listing: seq<string>, clock: nat -> Stamp, p: Parts)
    requires '/' in filepath && prefs.versionType == Alphanumeric
    requires Plain(filepath)
    requires SplitVersion(ProjectName(filepath)) == Some(p)
    requires incrementMajor || p.letter != 'z'
    ensures var r := Invoke(filepath, prefs, incrementMajor, listing, clock);
      var v := Increment(p, incrementMajor, VersionFormat(prefs.versionFormat));
      r.SaveAndArchive? && ProjectName(r.saveAs) == p.prefix + v.num + v.chr
  {
    var fmt := VersionFormat(prefs.versionFormat);
    var v := Increment(p, incrementMajor, fmt);
    AlphanumSaveTarget(filepath, prefs, incrementMajor, listing, clock, p);
    PrefixPlain(filepath, p);
    PlainVersion(p, incrementMajor, fmt);
    ReopenSaved(Dirname(filepath), p.prefix, v.num, v.chr);
  }

  /** After a minor increment below `z`, the file just saved, once opened, splits into
      the same stripped name and digits with the next letter: the following minor save
      continues the sequence. */
  lemma MinorResplit(filepath: string, prefs: Preferences, listing: seq<string>,
                     clock: nat -> Stamp, p: Parts)
    requires '/' in filepath && prefs.versionType == Alphanumeric
    requires Plain(filepath)
    requires SplitVersion(ProjectName(filepath)) == Some(p) && p.letter < 'z'
    ensures var r := Invoke(filepath, prefs, false, listing, clock);
      && r.SaveAndArchive?
      && ProjectName(r.saveAs) == p.prefix + p.digits + [NextLetter(p.letter)]
      && SplitVersion(ProjectName(r.saveAs)) == Some(Parts(p.prefix, p.digits, NextLetter(p.letter)))
  {
    SavedProjectName(filepath, prefs, false, listing, clock, p);
    MinorRoundTrip(p, VersionFormat(prefs.versionFormat));
  }

  /** After a major increment with the default three-digit format below 999, the file
      just saved splits into the same stripped name, the new digits and `a`. */
  lemma MajorResplit(filepath: string, prefs: Preferences, listing: seq<string>,
                     clock: nat -> Stamp, p: Parts)
    requires '/' in filepath && prefs.versionType == Alphanumeric && prefs.versionFormat == 3
    requires Plain(filepath)
    requires SplitVersion(ProjectName(filepath)) == Some(p) && DecimalValue(p.digits) < 999
    ensures var r := Invoke(filepath, prefs, true, listing, clock);
      var v := Increment(p, true, VersionFormat(prefs.versionFormat));
      && r.SaveAndArchive?
      && ProjectName(r.saveAs) == p.prefix + v.num + "a"
      && SplitVersion(ProjectName(r.saveAs)) == Some(Parts(p.prefix, v.num, 'a'))
  {
    SavedProjectName(filepath, prefs, true, listing, clock, p);
    MajorRoundTrip(p, VersionFormat(prefs.versionFormat));
  }

  /** The values an unversioned name leaves for the substitution. */
  function UnversionedVars(prefs: Preferences): Vars {
    Vars("{project}{separator}", prefs.separator,
         Some(FormatInt(1, ParseSpec(VersionFormat(prefs.versionFormat)))), Some("a"))
  }

  /** The alphanumeric plan for a name without a version suffix. */
  lemma UnversionedPlan(filepath: string, prefs: Preferences, incrementMajor: bool,
                        listing: seq<string>, clock: nat -> Stamp)
    requires '/' in filepath && prefs.versionType == Alphanumeric
    requires SplitVersion(ProjectName(filepath)) == None
    ensures var vars := UnversionedVars(prefs);
      var dir := VersionDir(filepath, prefs.versionPath, "{project}{separator}");
      var r := Invoke(filepath, prefs, incrementMajor, listing, clock);
      && r.SaveAndArchive? && r.versionDir == dir
      && r.saveAs == ConvertVariables(Join(Dirname(filepath), "{project}{num}{chr}") + ".blend", vars, clock(0))
      && r.moveFrom == ConvertVariables(Join(r.saveAs, "{project}{separator}") + ".blend", vars, clock(1))
      && r.moveTo == ConvertVariables(Join(dir, "{project}{separator}") + ".blend", vars, clock(2))
  {
    AlphanumInvoke(filepath, prefs, incrementMajor, listing, clock);
  }

  /** A name without a version suffix under the alphanumeric scheme: the project name
      becomes the template text `{project}{separator}`, so the file is saved as the
      literal `{project}`, the separator, the first number and `a` — whatever the
      open file was called. */
  lemma UnversionedSaveAs(filepath: string, prefs: Preferences, incrementMajor: bool,
                          listing: seq<string>, clock: nat -> Stamp)
    requires '/' in filepath && prefs.versionType == Alphanumeric
    requires SplitVersion(ProjectName(filepath)) == None
    requires Plain(filepath) && Plain(prefs.separator)
    ensures var one := FormatInt(1, ParseSpec(VersionFormat(prefs.versionFormat)));
      var r := Invoke(filepath, prefs, incrementMajor, listing, clock);
      r.SaveAndArchive? && r.saveAs == Join(Dirname(filepath), "{project}" + prefs.separator + one + "a") + ".blend"
  {
    UnversionedPlan(filepath, prefs, incrementMajor, listing, clock);
    PartsAvoid(filepath, '{');
    PlainNumber(1, ParseSpec(VersionFormat(prefs.versionFormat)));
    UnversionedSaveAsConvert(Dirname(filepath), UnversionedVars(prefs), clock(0));
  }

  lemma UnversionedSaveAsConvert(home: string, vars: Vars, now: Stamp)
    requires Plain(home) && vars.project == "{project}{separator}" && Plain(vars.separator)
    requires Truthy(vars.num) && Plain(vars.num.value) && vars.chr == Some("a")
    ensures ConvertVariables(Join(home, "{project}{num}{chr}") + ".blend", vars, now)
      == Join(home, "{project}" + vars.separator + vars.num.value + "a") + ".blend"
  {
    var pre := DirPrefix(home);
    JoinTemplate(home, "{project}{num}{chr}");
    UnversionedName(pre, vars, now);
    JoinName(home, "{project}" + vars.separator + vars.num.value + "a");
  }

  /** Hence two unversioned files in the same directory are saved under the same name. */
  lemma UnversionedIgnoresName(f1: string, f2: string, prefs: Preferences, incrementMajor: bool,
                               listing: seq<string>, clock: nat -> Stamp)
    requires '/' in f1 && '/' in f2 && Dirname(f1) == Dirname(f2)
    requires prefs.versionType == Alphanumeric
    requires SplitVersion(ProjectName(f1)) == None && SplitVersion(ProjectName(f2)) == None
    ensures Invoke(f1, prefs, incrementMajor, listing, clock).saveAs
         == Invoke(f2, prefs, incrementMajor, listing, clock).saveAs
  {
    UnversionedPlan(f1, prefs, incrementMajor, listing, clock);
    UnversionedPlan(f2, prefs, incrementMajor, listing, clock);
  }

  /** The rename source of an unversioned name is not beneath the file just saved:
      the conversion doubles the separator after each literal `{project}`, both in
      the saved path it starts from and in the name joined to it. Only an empty
      separator makes it start with the saved file's path. */
  lemma UnversionedMoveFrom(filepath: string, prefs: Preferences, incrementMajor: bool,
                            listing: seq<string>, clock: nat -> Stamp)
    requires '/' in filepath && prefs.versionType == Alphanumeric
    requires SplitVersion(ProjectName(filepath)) == None
    requires Plain(filepath) && Plain(prefs.separator)
    ensures var sep := prefs.separator;
      var one := FormatInt(1, ParseSpec(VersionFormat(prefs.versionFormat)));
      var r := Invoke(filepath, prefs, incrementMajor, listing, clock);
      && r.SaveAndArchive?
      && r.moveFrom == Join(Join(Dirname(filepath), "{project}" + sep + sep + one + "a") + ".blend", "{project}" + sep + sep) + ".blend"
  {
    UnversionedPlan(filepath, prefs, incrementMajor, listing, clock);
    UnversionedSaveAs(filepath, prefs, incrementMajor, listing, clock);
    PartsAvoid(filepath, '{');
    PlainNumber(1, ParseSpec(VersionFormat(prefs.versionFormat)));
    SourceConvert(Dirname(filepath), prefs.separator, FormatInt(1, ParseSpec(VersionFormat(prefs.versionFormat))),
                  UnversionedVars(prefs), clock(1));
  }

  /** The conversion behind `UnversionedMoveFrom`, over brace-free parts. */
  lemma SourceConvert(home: string, sep: string, one: string, vars: Vars, now: Stamp)
    requires Plain(home) && Plain(sep) && Plain(one)
    requires vars.project == "{project}{separator}" && vars.separator == sep
    ensures ConvertVariables(Join(Join(home, "{project}" + sep + one + "a") + ".blend", "{project}{separator}") + ".blend", vars, now)
      == Join(Join(home, "{project}" + sep + sep + one + "a") + ".blend", "{project}" + sep + sep) + ".blend"
  {
    var pre := DirPrefix(home);
    var mid := sep + one + "a" + ".blend" + "/";
    PlainLiterals();
    assert Plain(pre) && Plain(mid);
    JoinBlend(home, "{project}" + sep + one + "a", "{project}{separator}");
    JoinBlend(home, "{project}" + sep + sep + one + "a", "{project}" + sep + sep);
    SourceGroups(pre, "{project}", sep, one, "a", ".blend", "/", "{project}{separator}");
    UnversionedSource(pre, mid, vars, now);
  }

  /** A template name joined under a `.blend` path that is itself a joined template. */
  lemma JoinBlend(home: string, n: string, t: string)
    requires |n| > 0 && n[0] == '{' && |t| > 0 && t[0] == '{'
    ensures Join(Join(home, n) + ".blend", t) + ".blend" == DirPrefix(home) + n + ".blend" + "/" + t + ".blend"
  {
    JoinTemplate(home, n);
    var f := Join(home, n) + ".blend";
    assert f[|f| - 1] == 'd';
  }

  /** Associativity for the two paths of `SourceConvert`. */
  lemma SourceGroups(pre: string, p: string, s: string, o: string, a: string, b: string, slash: string, t: string)
    ensures pre + (p + s + o + a) + b + slash + t + b == pre + (p + ((s + o + a + b + slash) + (t + b)))
    ensures pre + (p + s + s + o + a) + b + slash + (p + s + s) + b
      == pre + (p + (s + ((s + o + a + b + slash) + (p + (s + (s + b))))))
  {
  }

  /** With a configured version directory, the unversioned file is moved to the
      literal `{project}` followed by the separator twice. */
  lemma UnversionedMoveTo(filepath: string, prefs: Preferences, incrementMajor: bool,
                          listing: seq<string>, clock: nat -> Stamp)
    requires '/' in filepath && prefs.versionType == Alphanumeric
    requires SplitVersion(ProjectName(filepath)) == None
    requires |prefs.versionPath| > 1 && Plain(prefs.versionPath) && Plain(prefs.separator)
    ensures var r := Invoke(filepath, prefs, incrementMajor, listing, clock);
      && r.SaveAndArchive? && r.versionDir == prefs.versionPath
      && r.moveTo == Join(prefs.versionPath, "{project}" + prefs.separator + prefs.separator) + ".blend"
  {
    UnversionedPlan(filepath, prefs, incrementMajor, listing, clock);
    UnversionedMoveToConvert(prefs.versionPath, UnversionedVars(prefs), clock(2));
  }

  lemma UnversionedMoveToConvert(dir: string, vars: Vars, now: Stamp)
    requires Plain(dir) && vars.project == "{project}{separator}" && Plain(vars.separator)
    ensures ConvertVariables(Join(dir, "{project}{separator}") + ".blend", vars, now)
      == Join(dir, "{project}" + vars.separator + vars.separator) + ".blend"
  {
    var pre := DirPrefix(dir);
    JoinTemplate(dir, "{project}{separator}");
    UnversionedArchive(pre, vars, now);
    JoinName(dir, "{project}" + vars.separator + vars.separator);
  }

  /** The project name of a saved `prefix + num + chr` file is that name again. */
  lemma ReopenSaved(home: string, prefix: string, num: string, chr: string)
    requires '/' !in prefix && |num| > 0 && num[0] != '/' && num[0] != '.'
    requires |chr| == 1 && chr[0] != '/'
    requires forall i :: 0 <= i < |num| ==> num[i] != '/'
    ensures ProjectName(Join(home, prefix + num + chr) + ".blend") == prefix + num + chr
  {
    var name := prefix + num + chr;
    assert '/' !in name by {
      assert forall i :: 0 <= i < |name| ==> name[i] != '/' by {
        forall i | 0 <= i < |name|
          ensures name[i] != '/'
        {
          if i < |prefix| {
            assert name[i] == prefix[i] && prefix[i] in prefix;
          }
        }
      }
    }
    assert name[|prefix|] == num[0];
    assert Join(home, name) + ".blend" == Join(home, name + ".blend");
    ProjectNameOfSave(home, name);
  }
}
