# Version names of the VF Save Version add-ons

A Dafny model of how the two Blender add-ons "VF Save Project Version"
(`VF_saveProjectVersion.py`) and "VF Save Version" (`VF_saveVersion.py`) choose
the file names they save to. The model covers:

- the serial-number scan over the version directory;
- the alphanumeric `001a` suffix with its major and minor increments;
- the name templates;
- the ordered `{placeholder}` substitution;
- the POSIX path functions the two `invoke` methods use.

Each `invoke` becomes a pure function. Its inputs are the open file's path, the
preferences, the directory listing and the clock. It returns a plan: open the
save dialog, save a copy at a path, save under a new name and archive the old
file, or fail with the exception Python would raise.

Modules, one per file:

- `Optional` (optional.dfy): `None`/`Some` and the two Python exceptions
  raised before anything is saved.
- `PyStr` (pystr.dfy): `str.split`, `str.join`, `str.replace`, `startswith`,
  `endswith` and `lower`, restricted to ASCII.
- `PyInt` (pyint.dfy): decimal text and `int()`, and `format(n, spec)` for the
  specifications `format(p, '02')` can produce.
- `PyPath` (pypath.dfy): `basename`, `dirname`, `splitext` and `join` of
  POSIX `os.path`.
- `Serial` (serial.dfy): `save_number_from_files` and the candidate filter,
  shared by both add-ons.
- `Alphanum` (alphanum.dfy): the `re.split(r'([0-9]{3})([a-z]{1})$', …)` split
  and the increment.
- `Substitution` (substitution.dfy): a list of `str.replace` steps applied in
  order, and what it does to plain text and to tokens.
- `Convert` (convert.dfy): `convert_variables` of VF_saveProjectVersion.py and
  the names it yields for each template.
- `ProjectVersion` (project_version.dfy): the `invoke` of
  VF_saveProjectVersion.py.
- `SaveVersion` (save_version.dfy): the `invoke` of VF_saveVersion.py.

Conventions:

- `Plain(s)` means that `s` holds no `{`. Text without `{` contains no
  placeholder, so no replace step touches it.
- The clock is a function `clock: nat -> Stamp`. The k-th
  `convert_variables` call reads `clock(k)`, and `Stamp` holds the
  `%Y-%m-%d` date and the `%H-%M-%S` time.

The code is modelled as written, including these behaviours:

- An unversioned alphanumeric name keeps the literal text `{project}`.
- The rename source is joined onto the new file's path.
- A minor increment past `z` gives `{`.
- `format(p, '02')` pads with spaces once the digits preference reaches 10.
- An empty project name makes `str.split` raise.
- The fallback folder of VF_saveVersion.py raises `NameError`.
- A separator that ends in a digit merges with a zero-filled serial, so the
  serial after `P1000.blend` saved at width 3 is 1001 rather than 000 again.

Each of these is stated in a contract: the two exceptions in the postconditions of the `invoke` functions, the others in lemmas.

The archive step of the alphanumeric scheme cannot succeed for a versioned
name such as `Proj001a`. The rename source at VF_saveProjectVersion.py:135 is
the path of the file just saved, followed by `/` and the project name. It lies
beneath a regular file, so the `os.rename` at line 139 fails
(`NotADirectoryError` on POSIX). `ProjectVersion.RenameUnderSaved` states
this. For an unversioned name the rename source is not beneath the saved file.
The conversion doubles the separator in it, so it names
`{project}<sep><sep>001a.blend/{project}<sep><sep>.blend`, a path that does not
exist unless the separator is empty (`FileNotFoundError`).
`ProjectVersion.UnversionedMoveFrom` states this path. File-system behaviour
is outside the model, so the plan records the paths and not the failure.

## Model

| member | source | states |
|---|---|---|
| PyStr.SplitJoin | VF_saveProjectVersion.py:98 | Joining the pieces of `str.split` with the separator gives back the split string. |
| PyStr.ReplaceIsJoinOfSplit | VF_saveProjectVersion.py:117-124 | The left-to-right replace-all agrees with Python's defining identity `s.replace(old, new) == new.join(s.split(old))` for every string. |
| PyStr.ReplacePlainPrefix | VF_saveProjectVersion.py:117-124 | Text in front that does not contain the first character of the pattern passes through a replace unchanged. |
| PyStr.ReplaceKeepsTail | VF_saveProjectVersion.py:117-124 | Text at the end that does not contain the last character of the pattern passes through a replace unchanged, whatever comes before it. |
| PyInt.NatToString | VF_saveProjectVersion.py:102 | `str(n)` is a non-empty run of digits that reads back as `n`, with no leading zero unless `n` is 0. |
| PyInt.ZeroFill | VF_saveProjectVersion.py:102 | Zero-filled formatting to width `w` gives only digits. Its value is the number and its length is the larger of `w` and the digit count, so it pads and never truncates. |
| PyInt.SpaceFill | VF_saveProjectVersion.py:102 | Without the zero flag, only blanks come before the digits of `str(n)`. The text after them reads back as `n`, and the length is the larger of the width and the digit count. |
| PyInt.FormatLength | VF_saveProjectVersion.py:58 | For any number and any specification, the text ends in the digits of the number's magnitude. It is as long as the width or as sign plus digits, whichever is longer, so padding never truncates. |
| PyInt.TwoDigitSpec | VF_saveProjectVersion.py:36 | Read back as a format spec, `format(p, '02')` means: zero fill to `p` for 0..9, space fill to `p` from 10 on, and space fill to `-p` for negative `p`. |
| PyPath.Dirname | VF_saveProjectVersion.py:40 | The directory part is a prefix of the path. It is empty exactly when the path has no `/`, which is the never-saved case. |
| PyPath.StripExt | VF_saveProjectVersion.py:49 | `splitext(p)[0]` is a prefix of `p`. It is either all of `p`, or `p` is cut at a dot after which no dot or slash follows. |
| PyPath.Basename | VF_saveProjectVersion.py:49 | The last component holds no `/`, ends the path, and is preceded by a `/` when shorter than the path. |
| PyPath.BasenameOfJoin | VF_saveProjectVersion.py:150 | The last component of `join(dir, name)` is `name` for a name without `/`. |
| PyPath.DirnameOfJoin | VF_saveProjectVersion.py:150 | Conversely, the directory part of `join(dir, name)` is `dir` again, for a non-empty `dir` not ending in `/` and a name without `/`. |
| PyPath.ProjectNameOfSave | VF_saveProjectVersion.py:49 | The project name of `join(dir, name + ".blend")` is `name`, for any slash-free name with a character other than a dot. |
| Serial.Candidates | VF_saveProjectVersion.py:90 | A listed file is kept exactly when it starts with the project name and its lower-cased name ends in `.blend`. |
| Serial.SidecarNotCandidate | VF_saveProjectVersion.py:90 | A name that does not end in `d` or `D` is never a candidate, so `.blend1` sidecars and other extensions are never counted. |
| Serial.EmptyNameCandidates | VF_saveProjectVersion.py:90 | With an empty project name there is a candidate exactly when some listed name ends in `.blend`, ignoring case. |
| Serial.LineSerialsMatches | VF_saveProjectVersion.py:98 | The matches of `\d{4,}$` with the multiline flag are exactly the lines' trailing digit runs of four or more digits. Every such line contributes its run, and nothing else is found. |
| Serial.LastLineSerial | VF_saveProjectVersion.py:98-101 | The last match, the one the loop reads, is the trailing run of the last line that ends in four or more digits. No later line ends in that many. |
| Serial.ReadSerialLines | VF_saveProjectVersion.py:98-101 | A file has a serial exactly when some line of the text after the last occurrence of the project name ends in four or more digits. The serial is the value of the last such line's trailing digits. |
| Serial.HighestBounds | VF_saveProjectVersion.py:94-101 | The loop's `highest` is at least every serial read. It is one of them, or -1 when no file yields a serial. |
| Serial.NextSerial | VF_saveProjectVersion.py:93-102 | With zero fill (a digits preference of 0 to 9), the next serial is all digits and exceeds every counted serial. It is 0, or one more than a serial actually found. Its length is the larger of the width and its digit count. |
| Serial.NextSerialBlank | VF_saveProjectVersion.py:93-102 | With blank fill (a digits preference of 10 or more, or a negative one), the next serial is blanks followed by exactly `str` of its value, with no leading zero. The digits exceed every counted serial and are 0 or one more than a serial found. The blanks make up the width. |
| Serial.ReadBack | VF_saveVersion.py:73 | Take `project + mid + d + ".blend"`, where `mid` is one line not ending in a digit and the project name does not recur. The scan reads the value of `d` when `d` has four or more digits, and nothing otherwise. |
| Serial.HighestAppend | VF_saveProjectVersion.py:99-101 | One more file raises `highest` to its serial when that serial is larger, and leaves it alone otherwise. |
| Serial.RescanAfterSave | VF_saveProjectVersion.py:93-102 | Rescan after saving the generated name: a serial of four or more digits is counted and the next one is one higher. A shorter one is not counted and the same serial comes again. |
| Serial.DigitSeparatorJump | VF_saveProjectVersion.py:98-105 | With separator `1` and width 3, the first serial is `000`. The scan reads `P1000.blend` as serial 1000, because the separator's digit joins the run, so the next serial is `1001`. |
| Alphanum.SplitVersion | VF_saveProjectVersion.py:53-55 | A successful split yields three digits, a lowercase letter, and a prefix the name starts with. The name is prefix, digits and letter, possibly followed by one newline. |
| Alphanum.SplitAtEnd | VF_saveProjectVersion.py:53-55 | Conversely, every name ending in three digits and a lowercase letter splits at that suffix, and the prefix is everything before it. |
| Alphanum.Increment | VF_saveProjectVersion.py:56-62 | A minor increment keeps the digit text and takes the letter one code point further. A major increment gives a number ending in the digits of the old value plus one, and the letter `a`. |
| Alphanum.Derive | VF_saveProjectVersion.py:52-66 | With a suffix, the project name is the text before it and the version is the suffix incremented. Without one, the project name is the literal `{project}{separator}`, the number ends in `1` and the letter is `a`. |
| Alphanum.SplitBeforeNewline | VF_saveProjectVersion.py:53-55 | A suffix followed by one final newline also splits, because `$` matches before a trailing newline. |
| Alphanum.MinorRoundTrip | VF_saveProjectVersion.py:61-62 | A minor increment below `z` keeps the digit text and advances the letter by one code point. The new name splits again into the same prefix and digits with the new letter. |
| Alphanum.MinorPastZ | VF_saveProjectVersion.py:62 | A minor increment of `z` gives `{`, and the resulting name no longer splits. |
| Alphanum.MajorIncrement | VF_saveProjectVersion.py:57-59 | A major increment with zero fill gives digits worth one more than the old number, at least as many as the width, and the letter `a`. |
| Alphanum.MajorRoundTrip | VF_saveProjectVersion.py:57-59 | With the default three-digit format and a number below 999, the new name splits again at the new number and `a`. |
| Substitution.PlainPrefix | VF_saveProjectVersion.py:116-125 | Text without `{` at the front of the string passes through all replace steps unchanged. |
| Substitution.TokenPrefix | VF_saveProjectVersion.py:116-125 | A token at the front becomes the value of the first step that names it. This holds when that value holds no `{` and no other step's token shares its first letter. |
| Substitution.KeepsTail | VF_saveProjectVersion.py:116-125 | Text at the end that holds the closing character of no token passes through all replace steps unchanged. |
| Substitution.UnnamedToken | VF_saveProjectVersion.py:121-124 | A token that no step replaces stays in the string as it is. |
| Substitution.LookupAt | VF_saveProjectVersion.py:116-124 | With step tokens that differ in their first letter, each token is looked up as its own step's value. |
| Convert.Steps | VF_saveProjectVersion.py:116-124 | The replace steps run in the order project, separator, date, time, then `num` and `chr` only when set, with tokens that differ in their first letter. |
| Convert.KeepsExtension | VF_saveProjectVersion.py:116-125 | The `.blend` appended before the conversion comes out of it unchanged, after the converted path, because every placeholder ends in `}`. |
| Convert.PlainPart | VF_saveProjectVersion.py:116-125 | A directory part without placeholder text comes out of `convert_variables` unchanged. |
| Convert.SerialName | VF_saveProjectVersion.py:105 | The serial template becomes project + separator + number, after a plain directory and before `.blend`. |
| Convert.DateTimeName | VF_saveProjectVersion.py:109 | The date-time template becomes project + separator + date + `-` + time. |
| Convert.AlphanumName | VF_saveProjectVersion.py:113 | The alphanumeric template becomes project + number + letter. |
| Convert.UnversionedName | VF_saveProjectVersion.py:63-66 | With the project name set to `{project}{separator}`, the template becomes the literal `{project}` + separator + number + letter. The real project name does not appear. |
| Convert.UnversionedArchive | VF_saveProjectVersion.py:137-138 | In the unversioned case the archive name becomes `{project}` followed by the separator twice. |
| Convert.UnversionedSource | VF_saveProjectVersion.py:116-125 | With the project name set to `{project}{separator}`, every literal `{project}` of a path gets the separator after it when the path ends in `{project}{separator}.blend`. That final name becomes `{project}` and the separator twice, and the brace-free text between passes unchanged. |
| Convert.UnsetKept | VF_saveProjectVersion.py:121-124 | When the number and letter are unset, `{num}` and `{chr}` are left in the string. |
| ProjectVersion.VersionFormat | VF_saveProjectVersion.py:36 | The format spec built from the digits preference: zero fill for 0..9, space fill beyond. |
| ProjectVersion.VersionDir | VF_saveProjectVersion.py:74-77 | A configured path of more than one character is used as it is. Otherwise, for a project name without `/`, the folder lies in the file's directory and is named after the project. When that directory is non-empty and does not end in `/`, it is exactly the folder's parent, so no sibling folder qualifies. |
| ProjectVersion.Invoke | VF_saveProjectVersion.py:40-152 | The save dialog opens exactly when the path has no directory part. The operator fails exactly for the serial scheme with an empty project name and a `.blend` file in the listing. It archives exactly in the alphanumeric scheme, and otherwise saves a copy. Every saved or archived path ends in `.blend`. |
| ProjectVersion.SerialPlan | VF_saveProjectVersion.py:88-105 | The serial scheme saves a copy ending in `.blend`, and fails exactly when the empty project name meets a candidate. |
| ProjectVersion.DateTimePlan | VF_saveProjectVersion.py:107-109 | The date-time scheme always saves a copy, and its path ends in `.blend` whatever the inputs hold. |
| ProjectVersion.AlphanumPlan | VF_saveProjectVersion.py:128-138 | The alphanumeric scheme always saves and archives. The new path, the rename source and the archive target all end in `.blend` whatever the inputs hold. |
| ProjectVersion.SerialTarget | VF_saveProjectVersion.py:150-151 | The serial copy goes to `join(dir, name + separator + next serial) + ".blend"`, with `dir` the version directory. |
| ProjectVersion.DateTimeTarget | VF_saveProjectVersion.py:150-151 | The date-time copy goes to `join(dir, name + separator + date + "-" + time) + ".blend"`. |
| ProjectVersion.SerialRescan | VF_saveProjectVersion.py:90-102 | Saving under the next serial and rescanning gives one more for a serial of four or more digits, and the same serial for a shorter one. |
| ProjectVersion.AlphanumTargets | VF_saveProjectVersion.py:128-138 | The file is saved as `join(dirname, prefix + num + chr) + ".blend"`. The rename source is that new path joined with the prefix. The archive target uses the stripped prefix. |
| ProjectVersion.AlphanumSaveTarget | VF_saveProjectVersion.py:130-131 | For a brace-free file path, the file is saved as `join(dirname, prefix + num + chr) + ".blend"`, whatever the version path holds. |
| ProjectVersion.RenameUnderSaved | VF_saveProjectVersion.py:135-139 | For a versioned name, the rename source starts with the saved file's path followed by `/`. The source lies beneath a file, so the rename cannot succeed. |
| ProjectVersion.SavedProjectName | VF_saveProjectVersion.py:130-131 | The saved file's project name is prefix + number + letter. |
| ProjectVersion.MinorResplit | VF_saveProjectVersion.py:61-62 | After a minor save of a letter below `z`, the new project name splits again with the next letter. |
| ProjectVersion.MajorResplit | VF_saveProjectVersion.py:57-59 | After a major save with the default format, the new project name splits again at the new number and `a`. |
| ProjectVersion.UnversionedSaveAs | VF_saveProjectVersion.py:130-131 | Without a suffix, the file is saved as `{project}` + separator + formatted 1 + `a` next to the old file. |
| ProjectVersion.UnversionedIgnoresName | VF_saveProjectVersion.py:64 | Two unversioned files in the same folder are saved under the same new path, whatever their names. |
| ProjectVersion.UnversionedMoveFrom | VF_saveProjectVersion.py:135-139 | Without a suffix, the rename source is `{project}` + separator + separator + formatted 1 + `a` + `.blend`, then `/`, `{project}` and the separator twice + `.blend`, next to the old file. The saved path has the separator once, so only an empty separator puts the source beneath the saved file. |
| ProjectVersion.UnversionedMoveTo | VF_saveProjectVersion.py:137-138 | Without a suffix, the old file is archived as `{project}` + separator + separator + `.blend` in the configured directory. |
| ProjectVersion.ReopenSaved | VF_saveProjectVersion.py:49 | Reopening the saved alphanumeric file gives back prefix + number + letter as its project name. |
| SaveVersion.NextNumber | VF_saveVersion.py:68-77 | The serial is all digits and at least four long. |
| SaveVersion.FourDigitSerial | VF_saveVersion.py:68-77 | The serial is one more than the highest serial counted, or 0. It is zero-padded to four digits and never truncated above 9999. |
| SaveVersion.Invoke | VF_saveVersion.py:34-98 | The save dialog opens exactly for a path without a directory part. `NameError` is raised exactly for a version path of at most one character. `ValueError` is raised exactly for the serial scheme with an empty name and a `.blend` file listed. Otherwise the configured folder is created and the copy path ends in `.blend`. For a brace-free folder, the copy path starts with that folder and `/`. |
| SaveVersion.SerialSave | VF_saveVersion.py:63-80 | The serial scheme saves a copy ending in `.blend`, or fails exactly when the empty project name meets a candidate. For a brace-free folder, the copy path starts with that folder and `/`. |
| SaveVersion.SaveAs | VF_saveVersion.py:87-95 | Joining, substituting and appending `.blend` gives a copy path ending in `.blend`. For a brace-free folder and a relative version name, it starts with the folder and `/`. |
| SaveVersion.InFolder | VF_saveVersion.py:87-95 | A brace-free folder with its `/` stays in front of a relative name through every replace step and the appended `.blend`. |
| SaveVersion.SerialTarget | VF_saveVersion.py:80 | The serial copy goes to `join(dir, name + " version-" + serial) + ".blend"`. |
| SaveVersion.DateTimeTarget | VF_saveVersion.py:84 | The date-time copy goes to `join(dir, name + " " + date + " " + time) + ".blend"`. |
| SaveVersion.SerialRescan | VF_saveVersion.py:73-80 | The scan reads the serial back from a name this code generated, and the next save after it gets one more. |

## Left out

- Blender calls are not modelled: `save_mainfile`, `save_as_mainfile`, the report, the confirmation popup and the display path (VF_saveProjectVersion.py:154-165). They are foreign UI calls. The plan records only the paths they receive.
- File-system effects are not modelled: `os.makedirs` (:84-85), `os.rename` and the `os.path.isfile` check on the `.blend1` sidecar (:139-141). Their behaviour lives outside the code. `os.listdir` is an input listing. The `os.path.exists` test before `os.makedirs` is subsumed by the plan's `versionDir` for the plans that carry one.
- ProjectVersion.Invoke, SaveVersion.Invoke: a `Failed` plan for the empty project name does not record the version folder. The source creates that folder (VF_saveProjectVersion.py:84-85, VF_saveVersion.py:56-57) and lists it (:90, :65) before `str.split` raises, so a failing serial save still leaves the folder behind.
- `bpy.path.abspath` is treated as the identity. The configured version path is taken as already resolved, and the enum value passed through it at VF_saveVersion.py:60 is unchanged for `SERIAL` and `DATETIME`.
- The clock is an input, `clock(k)` for the k-th read, because reading it is I/O.
- Strings are ASCII and paths are POSIX. Unicode `\d`, Unicode `str.lower` and Windows path rules are not modelled.
- Preference panels, menus, keymaps and add-on registration are not modelled. They are UI.
- `format` is modelled only for the specifications `format(p, '02')` produces: an optional `-`, then digits. Other format strings never reach it.
- ProjectVersion.SerialTarget, ProjectVersion.DateTimeTarget, ProjectVersion.AlphanumTargets, SaveVersion.SerialTarget, SaveVersion.DateTimeTarget: only for paths, separators and clock strings without `{`. With `{` in them, a later step can rewrite text an earlier step inserted, and the name is no longer the simple concatenation.
- ProjectVersion.SerialTarget, ProjectVersion.DateTimeTarget, SaveVersion.SerialTarget, SaveVersion.DateTimeTarget: only for a non-empty project name. An empty one makes the serial scan raise, or leaves a name without a project part.
- ProjectVersion.AlphanumTargets, ProjectVersion.AlphanumSaveTarget, ProjectVersion.RenameUnderSaved, ProjectVersion.SavedProjectName: not for a minor increment of `z`. The properties still hold there: `/h/Proj001z.blend` is saved as `/h/Proj001{.blend`, with project name `Proj001{`. They are not proved, because the new letter `{` is not brace-free and the substitution proofs need brace-free values. Alphanum.MinorPastZ covers the letter itself: it becomes `{`, and the saved name no longer splits.
- ProjectVersion.AlphanumSaveTarget, ProjectVersion.SavedProjectName, ProjectVersion.MinorResplit, ProjectVersion.MajorResplit: only for a file path without `{`. A `{` in the directory can be rewritten by the steps that fill in the new name.
- ProjectVersion.RenameUnderSaved: only for a versioned name and a file path without `{`. ProjectVersion.UnversionedMoveFrom covers the unversioned name, whose rename source is not beneath the saved file.
- ProjectVersion.UnversionedSaveAs, ProjectVersion.UnversionedMoveFrom: only for a file path and a separator without `{`.
- ProjectVersion.UnversionedMoveTo: only for a configured version path of more than one character, and a version path and separator without `{`.
- ProjectVersion.DateTimePlan, ProjectVersion.AlphanumPlan, ProjectVersion.SerialPlan: for arbitrary inputs they state the `.blend` ending and the kind of plan. The full paths are stated by the target lemmas above, under their restrictions.
- ProjectVersion.SerialRescan: only for a digits preference of 0 to 9, when the serial is zero-filled. Space-padded serials from 10 on do not read back as digits.
- Alphanum.MajorRoundTrip, ProjectVersion.MajorResplit: only for the default three-digit format and a number below 999. Past that, the number has more digits and the split finds only its last three.
- Serial.ReadBack, Serial.RescanAfterSave, SaveVersion.SerialRescan, ProjectVersion.SerialRescan: only when the project name does not recur in the text after it. Otherwise the scan reads only what follows the last occurrence.
- Serial.ReadBack, Serial.RescanAfterSave, ProjectVersion.SerialRescan: only for a separator without a newline that does not end in a digit. A newline ends the line the scan reads. A final digit joins the serial's run, as Serial.DigitSeparatorJump shows. The separator of VF_saveVersion.py is the fixed ` version-`, so SaveVersion.SerialRescan needs neither restriction.
