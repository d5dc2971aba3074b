/**
  The name logic of the "Save Version" operator (`invoke` of VF_saveVersion.py):
  a copy of the open file is saved into the configured directory, named after
  the project with either a four-digit serial or the date and time.
 */
module SaveVersion {
  import opened Optional
  import opened PyStr
  import opened PyInt
  import opened PyPath
  import opened Serial
  import opened Substitution
  import opened Convert

  /** The two naming schemes of the `version_type` preference. */
  datatype VersionType = SerialNumber | DateTime

  /** The preferences the operator reads; `versionPath` is taken as already resolved
      by `bpy.path.abspath`. */
  datatype Preferences = Preferences(versionType: VersionType, versionPath: string)

  /** What the operator does with the names it builds. */
  datatype Plan =
    | SaveDialog
      // the file was never saved: open Blender's save dialog instead (lines 36-39)
    | SaveCopy(versionDir: string, target: string)
      // create `versionDir` if missing and save a copy of the project at `target`
    | Failed(error: Error)
      // the operator raises before saving anything

  /** The format specification of line 77. */
  const SerialFormat: string := "04"

  lemma SerialFormatIsFourZeros()
    ensures IsSimpleSpec(SerialFormat) && ParseSpec(SerialFormat) == Spec(true, 4)
  {
    var w := SerialFormat[1..];
    assert w == "4" && w[..0] == [];
    assert DecimalValue(w) == DecimalValue(w[..0]) * 10 + DigitValue(w[0]);
  }

  /** The replace calls of lines 90-92, in order. */
  function Steps(project: string, now: Stamp): (r: seq<Step>)
    ensures AllTokens(r) && SecondCharsDistinct(r)
    ensures r == [Step("{project}", project), Step("{date}", now.date), Step("{time}", now.time)]
  {
    var time := [Step("{time}", now.time)];
    var date := [Step("{date}", now.date)] + time;
    TokenFacts();
    ConsStep(Step("{date}", now.date), time);
    ConsStep(Step("{project}", project), date);
    [Step("{project}", project)] + date
  }

  /** Lines 68-77: the next serial of the candidates in the listing, always with at
      least four digits. */
  function NextNumber(name: string, listing: seq<string>): (r: string)
    requires |name| > 0
    ensures AllDigits(r) && |r| >= 4
  {
    SerialFormatIsFourZeros();
    var files := Candidates(listing, name);
    NumberValue(files, name, 4);
    NumberLength(files, name, 4);
    SaveNumberFromFiles(files, name, ParseSpec(SerialFormat))
  }

  /** `invoke`. A configured directory of at most one character reaches line 49,
      which names the undefined `projectname` and raises `NameError`. */
  function Invoke(filepath: string, prefs: Preferences, listing: seq<string>, now: Stamp): (r: Plan)
    ensures r == SaveDialog <==> '/' !in filepath
    ensures r == Failed(UndefinedName) <==> '/' in filepath && |prefs.versionPath| <= 1
    ensures r == Failed(EmptySeparator) <==>
      && '/' in filepath && |prefs.versionPath| > 1
      && prefs.versionType == SerialNumber && ProjectName(filepath) == []
      && exists f :: f in listing && EndsWith(Lower(f), ".blend")
    ensures r.SaveCopy? ==> r.versionDir == prefs.versionPath && EndsWith(r.target, ".blend")
    ensures r.SaveCopy? && Plain(prefs.versionPath) ==> StartsWith(r.target, DirPrefix(prefs.versionPath))
  {
    if |Dirname(filepath)| < 1 then SaveDialog
    else if |prefs.versionPath| <= 1 then Failed(UndefinedName)
    else
      match prefs.versionType
      case SerialNumber => SerialSave(filepath, prefs.versionPath, listing, now)
      case DateTime =>
        TemplateHeads("");
        SaveAs(prefs.versionPath, "{project} {date} {time}", ProjectName(filepath), now)
  }

  /** The serial scheme, lines 65-80: `str.split` with an empty project name raises
      `ValueError` as soon as one candidate has to be read. */
  function SerialSave(filepath: string, dir: string, listing: seq<string>, now: Stamp): (r: Plan)
    ensures r.SaveCopy? || r == Failed(EmptySeparator)
    ensures r == Failed(EmptySeparator) <==>
      ProjectName(filepath) == [] && exists f :: f in listing && EndsWith(Lower(f), ".blend")
    ensures r.SaveCopy? ==> r.versionDir == dir && EndsWith(r.target, ".blend")
    ensures r.SaveCopy? && Plain(dir) ==> StartsWith(r.target, DirPrefix(dir))
  {
    var name := ProjectName(filepath);
    var files := Candidates(listing, name);
    if |name| == 0 && |files| > 0 then
      EmptyNameCandidates(listing);
      Failed(EmptySeparator)
    else
      var number := SaveNumberFromFiles(files, name, ParseSpec(SerialFormat));
      TemplateHeads(number);
      var r := SaveAs(dir, "{project} version-" + number, name, now);
      assert name == [] ==> !exists f :: f in listing && EndsWith(Lower(f), ".blend") by {
        EmptyNameCandidates(listing);
      }
      r
  }

  /** Lines 87-95: the version name joined to the directory, its placeholders replaced,
      and `.blend` appended. The date and time are read once each, in this one call. */
  function SaveAs(dir: string, versionName: string, name: string, now: Stamp): (r: Plan)
    ensures r.SaveCopy? && r.versionDir == dir && EndsWith(r.target, ".blend")
    ensures Plain(dir) && |versionName| > 0 && versionName[0] != '/' ==>
      StartsWith(r.target, DirPrefix(dir))
  {
    var stem := ApplySteps(Join(dir, versionName), Steps(name, now));
    SuffixOfConcat(stem, ".blend");
    if Plain(dir) && |versionName| > 0 && versionName[0] != '/' then
      InFolder(dir, versionName, Steps(name, now));
      SaveCopy(dir, stem + ".blend")
    else SaveCopy(dir, stem + ".blend")
  }

  /** Both version names are relative: they start with `{`. */
  lemma TemplateHeads(n: string)
    ensures |"{project} version-" + n| > 0 && ("{project} version-" + n)[0] == '{'
    ensures |"{project} {date} {time}"| > 0 && "{project} {date} {time}"[0] == '{'
  {
  }

  /** A relative name joined to a brace-free directory keeps that directory, with its
      `/`, in front through every replace step and the appended `.blend`. */
  lemma InFolder(dir: string, versionName: string, st: seq<Step>)
    requires AllTokens(st) && Plain(dir)
    requires |versionName| > 0 && versionName[0] != '/'
    ensures StartsWith(ApplySteps(Join(dir, versionName), st) + ".blend", DirPrefix(dir))
  {
    var pre := DirPrefix(dir);
    assert Plain(pre) by {
      assert forall i :: 0 <= i < |pre| ==> pre[i] == '/' || pre[i] in dir;
    }
    PlainPrefix(pre, versionName, st);
    var rest := ApplySteps(versionName, st);
    assert (pre + rest + ".blend")[..|pre|] == pre;
  }

  /** The next serial: digits denoting one more than the highest serial a candidate
      holds (`Highest` is -1 when none holds one), at least four of them, and more
      only when the number itself needs more — never cut. */
  lemma FourDigitSerial(name: string, listing: seq<string>)
    requires |name| > 0
    ensures var n := NextNumber(name, listing);
      && AllDigits(n) && |n| >= 4
      && DecimalValue(n) == Highest(Serials(Candidates(listing, name), name)) + 1
      && |n| == (if 4 > |NatToString(DecimalValue(n))| then 4 else |NatToString(DecimalValue(n))|)
  {
    var files := Candidates(listing, name);
    SerialFourDigits(name, listing);
    NumberValue(files, name, 4);
    NumberLength(files, name, 4);
  }

  lemma SerialFourDigits(name: string, listing: seq<string>)
    requires |name| > 0
    ensures NextNumber(name, listing) == SaveNumberFromFiles(Candidates(listing, name), name, Spec(true, 4))
  {
    SerialFormatIsFourZeros();
  }

  /** The saved copy is read back: its serial is the number it was saved with, and
      the next invocation proposes one more. This needs the project name not to occur
      again in ` version-` and the number. */
  lemma SerialRescan(name: string, listing: seq<string>)
    requires |name| > 0
    requires !Occurs(" version-" + NextNumber(name, listing), name)
    ensures var n := NextNumber(name, listing);
      var saved := name + " version-" + n + ".blend";
      && ReadSerial(saved, name) == Some(DecimalValue(n))
      && DecimalValue(NextNumber(name, listing + [saved])) == DecimalValue(n) + 1
  {
    SerialFormatIsFourZeros();
    var files := Candidates(listing, name);
    var n := NextNumber(name, listing);
    var mid := " version-";
    var saved := name + mid + n + ".blend";
    VersionMid();
    FourDigitSerial(name, listing);
    ReadBack(name, mid, n);
    GeneratedIsCandidate(name, mid, n);
    CandidatesAppend(listing, saved, name);
    RescanAfterSave(files, name, mid, 4);
  }

  /** The text between the project name and the serial is one line ending in a non-digit. */
  lemma VersionMid()
    ensures '\n' !in " version-" && !IsDigit(" version-"[8])
  {
  }

  /** What `{project}` becomes, and that it is told apart from the other tokens. */
  lemma ProjectLookup(name: string, now: Stamp)
    ensures Distinguishable("{project}", Steps(name, now)) && Lookup("{project}", Steps(name, now)) == name
    ensures Distinguishable("{date}", Steps(name, now)) && Lookup("{date}", Steps(name, now)) == now.date
    ensures Distinguishable("{time}", Steps(name, now)) && Lookup("{time}", Steps(name, now)) == now.time
  {
    LookupAt(Steps(name, now), 0);
    LookupAt(Steps(name, now), 1);
    LookupAt(Steps(name, now), 2);
  }

  /** The serial scheme saves a copy named project name, ` version-` and the next
      serial into the configured directory. */
  lemma SerialTarget(filepath: string, prefs: Preferences, listing: seq<string>, now: Stamp)
    requires '/' in filepath && |prefs.versionPath| > 1 && prefs.versionType == SerialNumber
    requires |ProjectName(filepath)| > 0
    requires Plain(filepath) && Plain(prefs.versionPath)
    ensures var name := ProjectName(filepath);
      Invoke(filepath, prefs, listing, now)
        == SaveCopy(prefs.versionPath, Join(prefs.versionPath, name + " version-" + NextNumber(name, listing)) + ".blend")
  {
    var name := ProjectName(filepath);
    var n := NextNumber(name, listing);
    PartsAvoid(filepath, '{');
    ProjectNameRelative(filepath);
    SerialFormatIsFourZeros();
    FormatChars(Highest(Serials(Candidates(listing, name), name)) + 1, Spec(true, 4));
    SerialConvert(prefs.versionPath, name, n, now);
  }

  lemma SerialConvert(dir: string, name: string, n: string, now: Stamp)
    requires Plain(dir) && Plain(name) && Plain(n) && |name| > 0 && '/' !in name
    ensures ApplySteps(Join(dir, "{project} version-" + n), Steps(name, now))
      == Join(dir, name + " version-" + n)
  {
    var st := Steps(name, now);
    var rest := " version-" + n;
    SerialParts(name, n);
    ProjectLookup(name, now);
    assert name[0] in name;
    ProjectInPath(dir, st, name, rest);
    PlainUnchanged(rest, st);
  }

  lemma SerialParts(name: string, n: string)
    ensures "{project} version-" + n == "{project}" + (" version-" + n)
    ensures name + " version-" + n == name + (" version-" + n)
  {
  }

  /** A relative path starting with `{project}` converts to one starting with the
      name; the rest of it is substituted on its own. */
  lemma ProjectInPath(dir: string, st: seq<Step>, name: string, rest: string)
    requires AllTokens(st) && Plain(dir)
    requires Distinguishable("{project}", st) && Lookup("{project}", st) == name && Plain(name)
    requires |name| > 0 && name[0] != '/'
    ensures ApplySteps(Join(dir, "{project}" + rest), st) == Join(dir, name + ApplySteps(rest, st))
  {
    var pre := DirPrefix(dir);
    assert Join(dir, "{project}" + rest) == pre + ("{project}" + rest);
    assert Join(dir, name + ApplySteps(rest, st)) == pre + (name + ApplySteps(rest, st));
    PlainPrefix(pre, "{project}" + rest, st);
    TokenPrefix("{project}", rest, st);
  }

  /** The date-time scheme saves a copy named project name, date and time, separated
      by blanks, into the configured directory. */
  lemma DateTimeTarget(filepath: string, prefs: Preferences, listing: seq<string>, now: Stamp)
    requires '/' in filepath && |prefs.versionPath| > 1 && prefs.versionType == DateTime
    requires |ProjectName(filepath)| > 0
    requires Plain(filepath) && Plain(prefs.versionPath) && Plain(now.date) && Plain(now.time)
    ensures var name := ProjectName(filepath);
      Invoke(filepath, prefs, listing, now)
        == SaveCopy(prefs.versionPath, Join(prefs.versionPath, name + " " + now.date + " " + now.time) + ".blend")
  {
    var name := ProjectName(filepath);
    PartsAvoid(filepath, '{');
    ProjectNameRelative(filepath);
    DateTimeConvert(prefs.versionPath, name, now);
  }

  lemma DateTimeConvert(dir: string, name: string, now: Stamp)
    requires Plain(dir) && Plain(name) && Plain(now.date) && Plain(now.time)
    requires |name| > 0 && '/' !in name
    ensures ApplySteps(Join(dir, "{project} {date} {time}"), Steps(name, now))
      == Join(dir, name + " " + now.date + " " + now.time)
  {
    var st := Steps(name, now);
    DateTimeParts();
    ProjectLookup(name, now);
    assert name[0] in name;
    ProjectInPath(dir, st, name, " " + ("{date}" + (" " + "{time}")));
    DateTimeTail(st, now.date, now.time);
    Flatten(name, " ", now.date, " ", now.time);
  }

  lemma DateTimeParts()
    ensures "{project} {date} {time}" == "{project}" + (" " + ("{date}" + (" " + "{time}")))
  {
  }

  lemma Flatten(a: string, b: string, c: string, d: string, e: string)
    ensures a + (b + c + d + e) == a + b + c + d + e
  {
  }

  lemma DateTimeTail(st: seq<Step>, date: string, time: string)
    requires AllTokens(st)
    requires Distinguishable("{date}", st) && Lookup("{date}", st) == date && Plain(date)
    requires Distinguishable("{time}", st) && Lookup("{time}", st) == time && Plain(time)
    ensures ApplySteps(" " + ("{date}" + (" " + "{time}")), st) == " " + date + " " + time
  {
    var t3 := "{time}";
    TimeAlone(st, time);
    PlainPrefix(" ", t3, st);
    TokenPrefix("{date}", " " + t3, st);
    PlainPrefix(" ", "{date}" + (" " + t3), st);
  }

  lemma TimeAlone(st: seq<Step>, time: string)
    requires AllTokens(st)
    requires Distinguishable("{time}", st) && Lookup("{time}", st) == time && Plain(time)
    ensures ApplySteps("{time}", st) == time
  {
    EmptyUnchanged(st);
    assert "{time}" == "{time}" + [];
    TokenPrefix("{time}", [], st);
    assert time + [] == time;
  }
}
