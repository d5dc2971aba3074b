/**
  The serial-number scan both add-ons run over the version directory: keep the
  `.blend` files that start with the project name, read the serial each one
  ends with, and format one more than the highest serial found.
 */
module Serial {
  import opened Optional
  import opened PyStr
  import opened PyInt
  import opened PyPath

  /** Where the longest run of ASCII digits that ends `s` begins. */
  function TrailingStart(s: string): (k: nat)
    ensures k <= |s|
    ensures forall i :: k <= i < |s| ==> IsDigit(s[i])
    ensures k == 0 || !IsDigit(s[k - 1])
    decreases |s|
  {
    if |s| > 0 && IsDigit(s[|s| - 1]) then TrailingStart(s[..|s| - 1]) else |s|
  }

  /** The longest run of ASCII digits that ends `s`. */
  function TrailingDigits(s: string): (r: string)
    ensures AllDigits(r)
  {
    var k := TrailingStart(s);
    assert forall i :: 0 <= i < |s[k..]| ==> s[k..][i] == s[k + i];
    s[k..]
  }

  /** One match of `\d{4,}$` per line: the line's trailing digits, if there are four or more. */
  function LineSerials(lines: seq<string>): (r: seq<string>)
    ensures |r| <= |lines|
    ensures forall i :: 0 <= i < |r| ==> |r[i]| >= 4 && AllDigits(r[i])
    decreases |lines|
  {
    if |lines| == 0 then []
    else
      var t := TrailingDigits(lines[0]);
      (if |t| >= 4 then [t] else []) + LineSerials(lines[1..])
  }

  /** The matches are exactly the trailing digit runs of four or more digits: every
      line that ends in such a run contributes it, and nothing else is found. */
  lemma {:induction false} LineSerialsMatches(lines: seq<string>)
    ensures forall i :: 0 <= i < |lines| && |TrailingDigits(lines[i])| >= 4 ==>
      TrailingDigits(lines[i]) in LineSerials(lines)
    ensures forall x :: x in LineSerials(lines) ==>
      exists i :: 0 <= i < |lines| && |TrailingDigits(lines[i])| >= 4 && x == TrailingDigits(lines[i])
    decreases |lines|
  {
    if |lines| > 0 {
      var tail := lines[1..];
      LineSerialsMatches(tail);
      var t := TrailingDigits(lines[0]);
      var rest := LineSerials(tail);
      assert LineSerials(lines) == (if |t| >= 4 then [t] else []) + rest;
      forall i | 0 <= i < |lines| && |TrailingDigits(lines[i])| >= 4
        ensures TrailingDigits(lines[i]) in LineSerials(lines)
      {
        if i > 0 {
          assert lines[i] == tail[i - 1];
        }
      }
      forall x | x in LineSerials(lines)
        ensures exists i :: 0 <= i < |lines| && |TrailingDigits(lines[i])| >= 4 && x == TrailingDigits(lines[i])
      {
        if x in rest {
          var j :| 0 <= j < |tail| && |TrailingDigits(tail[j])| >= 4 && x == TrailingDigits(tail[j]);
          assert tail[j] == lines[j + 1];
        } else {
          assert x == t && |TrailingDigits(lines[0])| >= 4;
        }
      }
    }
  }

  /** The last match, the one the scan reads, is the trailing run of the last line
      that ends in four or more digits. */
  lemma {:induction false} LastLineSerial(lines: seq<string>)
    ensures |LineSerials(lines)| > 0 ==>
      exists k :: 0 <= k < |lines| && Last(LineSerials(lines)) == TrailingDigits(lines[k])
        && |TrailingDigits(lines[k])| >= 4
        && forall j :: k < j < |lines| ==> |TrailingDigits(lines[j])| < 4
    decreases |lines|
  {
    if |lines| > 0 {
      var tail := lines[1..];
      var t := TrailingDigits(lines[0]);
      var rest := LineSerials(tail);
      var all := LineSerials(lines);
      assert all == (if |t| >= 4 then [t] else []) + rest;
      if |rest| > 0 {
        LastLineSerial(tail);
        var k :| 0 <= k < |tail| && Last(rest) == TrailingDigits(tail[k])
          && |TrailingDigits(tail[k])| >= 4
          && forall j :: k < j < |tail| ==> |TrailingDigits(tail[j])| < 4;
        assert Last(all) == Last(rest);
        assert tail[k] == lines[k + 1];
        forall j | k + 1 < j < |lines|
          ensures |TrailingDigits(lines[j])| < 4
        {
          assert lines[j] == tail[j - 1];
        }
      } else if |t| >= 4 {
        LineSerialsMatches(tail);
        assert Last(all) == t;
        forall j | 0 < j < |lines|
          ensures |TrailingDigits(lines[j])| < 4
        {
          assert lines[j] == tail[j - 1];
        }
      }
    }
  }

  /** `re.findall(r'\d{4,}$', s, re.M)`: with the multiline flag `$` matches at the
      end of every line, so every line contributes its own match. */
  function FindAllSerials(s: string): seq<string> {
    LineSerials(Split(s, "\n"))
  }

  /** The filter of the list comprehension: the name starts with the project name
      and, lower-cased, ends with `.blend`. */
  predicate IsCandidate(f: string, project: string) {
    StartsWith(f, project) && EndsWith(Lower(f), ".blend")
  }

  /** The listing filtered to candidates, in listing order. */
  function Candidates(listing: seq<string>, project: string): (r: seq<string>)
    ensures |r| <= |listing|
    ensures forall f :: f in r <==> f in listing && IsCandidate(f, project)
    decreases |listing|
  {
    if |listing| == 0 then []
    else
      var init := listing[..|listing| - 1];
      var f := listing[|listing| - 1];
      assert listing == init + [f];
      Candidates(init, project) + (if IsCandidate(f, project) then [f] else [])
  }

  /** The serial one file contributes: the last match of `\d{4,}$` in the text after
      the last occurrence of the project name in the file's stem, read as a number. */
  function ReadSerial(f: string, project: string): Option<nat>
    requires |project| > 0
  {
    var suffix := FindAllSerials(Last(Split(StripExt(f), project)));
    if |suffix| > 0 then Some(DecimalValue(Last(suffix))) else None
  }

  /** What one file contributes, line by line: the text after the last occurrence of
      the project name in the stem is cut into lines; the file has a serial exactly
      when some line ends in four or more digits, and the serial is the value of the
      last such line's trailing digits. */
  lemma ReadSerialLines(f: string, project: string)
    requires |project| > 0
    ensures var lines := Split(Last(Split(StripExt(f), project)), "\n");
      && (ReadSerial(f, project).Some? <==>
          exists i :: 0 <= i < |lines| && |TrailingDigits(lines[i])| >= 4)
      && (ReadSerial(f, project).Some? ==>
          exists k :: 0 <= k < |lines| && |TrailingDigits(lines[k])| >= 4
            && ReadSerial(f, project).value == DecimalValue(TrailingDigits(lines[k]))
            && forall j :: k < j < |lines| ==> |TrailingDigits(lines[j])| < 4)
  {
    var lines := Split(Last(Split(StripExt(f), project)), "\n");
    ReadSerialFound(f, project);
    LastMatch(lines);
  }

  /** `ReadSerial` through the matches of the text's lines. */
  lemma ReadSerialFound(f: string, project: string)
    requires |project| > 0
    ensures var found := LineSerials(Split(Last(Split(StripExt(f), project)), "\n"));
      && (ReadSerial(f, project).Some? <==> |found| > 0)
      && (ReadSerial(f, project).Some? ==> ReadSerial(f, project).value == DecimalValue(Last(found)))
  {
  }

  /** The line-by-line reading of the matches: there is one exactly when some line
      ends in four or more digits, and the last one is the trailing run of the last
      such line. */
  lemma LastMatch(lines: seq<string>)
    ensures var found := LineSerials(lines);
      && (|found| > 0 <==> exists i :: 0 <= i < |lines| && |TrailingDigits(lines[i])| >= 4)
      && (|found| > 0 ==>
          exists k :: 0 <= k < |lines| && |TrailingDigits(lines[k])| >= 4
            && Last(found) == TrailingDigits(lines[k])
            && forall j :: k < j < |lines| ==> |TrailingDigits(lines[j])| < 4)
  {
    var found := LineSerials(lines);
    LineSerialsMatches(lines);
    LastLineSerial(lines);
  }

  /** The serial of every file, in order. */
  function Serials(files: seq<string>, project: string): (r: seq<Option<nat>>)
    requires |project| > 0 || |files| == 0
    ensures |r| == |files|
    ensures forall i :: 0 <= i < |files| ==> r[i] == ReadSerial(files[i], project)
  {
    seq(|files|, i requires 0 <= i < |files| => ReadSerial(files[i], project))
  }

  /** The `highest` the loop ends with: -1, raised by every serial greater than it. */
  function Highest(serials: seq<Option<nat>>): (r: int)
    ensures r >= -1
    decreases |serials|
  {
    if |serials| == 0 then -1
    else
      var h := Highest(serials[..|serials| - 1]);
      match serials[|serials| - 1]
      case Some(v) => if v > h then v else h
      case None => h
  }

  /** `highest` is the largest serial: no serial exceeds it, and unless it is -1 some
      file holds it. */
  lemma {:induction false} HighestBounds(serials: seq<Option<nat>>)
    ensures forall i :: 0 <= i < |serials| && serials[i].Some? ==> serials[i].value <= Highest(serials)
    ensures Highest(serials) == -1 || exists i :: 0 <= i < |serials| && serials[i] == Some(Highest(serials))
    decreases |serials|
  {
    if |serials| > 0 {
      var init := serials[..|serials| - 1];
      HighestBounds(init);
      assert forall i :: 0 <= i < |init| ==> init[i] == serials[i];
      if Highest(serials) != Highest(init) {
        assert serials[|serials| - 1] == Some(Highest(serials));
      }
    }
  }

  /** `n` is the number after the serials: it exceeds every serial, and it is 0 or
      one more than a serial some file holds. */
  predicate NextAfter(serials: seq<Option<nat>>, n: nat) {
    && (forall i :: 0 <= i < |serials| && serials[i].Some? ==> serials[i].value < n)
    && (n == 0 || exists i :: 0 <= i < |serials| && serials[i] == Some(n - 1))
  }

  /** `save_number_from_files`: one more than the highest serial, formatted. */
  function SaveNumberFromFiles(files: seq<string>, project: string, spec: Spec): string
    requires |project| > 0 || |files| == 0
  {
    FormatInt(Highest(Serials(files, project)) + 1, spec)
  }

  /** With zero fill, the next serial is exactly one more than the largest serial any
      file holds (0 when none holds one), written with at least `w` digits and all of
      its own digits. */
  lemma NextSerial(files: seq<string>, project: string, w: nat)
    requires |project| > 0 || |files| == 0
    ensures var r := SaveNumberFromFiles(files, project, Spec(true, w));
      && AllDigits(r)
      && NextAfter(Serials(files, project), DecimalValue(r))
      && |r| == (if w > |NatToString(DecimalValue(r))| then w else |NatToString(DecimalValue(r))|)
  {
    NumberValue(files, project, w);
    NumberLength(files, project, w);
    OneAbove(Serials(files, project), SaveNumberFromFiles(files, project, Spec(true, w)));
  }

  /** With blank fill (a padding preference of 10 or more, or a negative one) the next
      serial is blanks followed by digits, and those digits read back as one more than
      the largest serial any file holds; the blanks make up the width. */
  lemma NextSerialBlank(files: seq<string>, project: string, w: nat)
    requires |project| > 0 || |files| == 0
    ensures var vals := Serials(files, project);
      var r := SaveNumberFromFiles(files, project, Spec(false, w));
      exists k :: 0 <= k < |r|
        && (forall i :: 0 <= i < k ==> r[i] == ' ')
        && AllDigits(r[k..])
        && r[k..] == NatToString(DecimalValue(r[k..]))
        && NextAfter(vals, DecimalValue(r[k..]))
        && |r| == (if w > |r| - k then w else |r| - k)
  {
    var vals := Serials(files, project);
    var n := Highest(vals) + 1;
    var r := SaveNumberFromFiles(files, project, Spec(false, w));
    assert r == FormatInt(n, Spec(false, w));
    SpaceFill(n, w);
    var k := |r| - |NatToString(n)|;
    assert r[k..] == NatToString(n);
    OneAbove(vals, r[k..]);
  }

  /** Digits denoting one more than `highest` exceed every serial and follow one of them. */
  lemma OneAbove(vals: seq<Option<nat>>, r: string)
    requires AllDigits(r) && DecimalValue(r) == Highest(vals) + 1
    ensures NextAfter(vals, DecimalValue(r))
  {
    HighestBounds(vals);
  }

  lemma NumberLength(files: seq<string>, project: string, w: nat)
    requires |project| > 0 || |files| == 0
    ensures var n := SaveNumberFromFiles(files, project, Spec(true, w));
      |n| == (if w > |NatToString(DecimalValue(n))| then w else |NatToString(DecimalValue(n))|)
  {
    var h := Highest(Serials(files, project));
    ZeroFill(h + 1, w);
  }

  /** Backup sidecars (`.blend1`) and every name whose last character is not a `d`
      or `D` are never candidates. */
  lemma SidecarNotCandidate(f: string, project: string)
    requires |f| > 0 && f[|f| - 1] != 'd' && f[|f| - 1] != 'D'
    ensures !IsCandidate(f, project)
  {
    var l := Lower(f);
    assert l[|l| - 1] != ".blend"[5];
  }

  /** A name the add-ons write, `project + mid + digits + ".blend"`, is a candidate. */
  lemma GeneratedIsCandidate(project: string, mid: string, d: string)
    ensures IsCandidate(project + mid + d + ".blend", project)
  {
    var f := project + mid + d + ".blend";
    assert f[..|project|] == project;
    var l := Lower(f);
    assert l[|l| - 6..] == ".blend" by {
      forall i | 0 <= i < 6
        ensures l[|l| - 6 + i] == ".blend"[i]
      {
        assert f[|f| - 6 + i] == ".blend"[i];
      }
    }
  }

  /** Digits appended after text that does not end in a digit are the trailing run. */
  lemma TrailingDigitsAfter(mid: string, d: string)
    requires AllDigits(d)
    requires |mid| == 0 || !IsDigit(mid[|mid| - 1])
    ensures TrailingDigits(mid + d) == d
  {
    var s := mid + d;
    assert forall i :: |mid| <= i < |s| ==> s[i] == d[i - |mid|];
    assert |mid| > 0 ==> s[|mid| - 1] == mid[|mid| - 1];
    assert TrailingStart(s) == |mid|;
    assert s[|mid|..] == d;
  }

  lemma NoNewline(s: string)
    requires '\n' !in s
    ensures !Occurs(s, "\n")
  {
    forall i | 0 <= i <= |s|
      ensures !OccursAt(s, "\n", i)
    {
      if i + 1 <= |s| {
        assert s[i] in s;
        assert s[i..i + 1] == [s[i]];
      }
    }
  }

  /** Reading back a name the add-ons write, `project + mid + digits + ".blend"`:
      the digits count, as their own value, exactly when there are four or more.
      This needs the project name not to reappear after itself and `mid` to be a
      single line that does not end in a digit. */
  lemma ReadBack(project: string, mid: string, d: string)
    requires |project| > 0
    requires AllDigits(d) && |d| >= 1
    requires '\n' !in mid
    requires |mid| == 0 || !IsDigit(mid[|mid| - 1])
    requires !Occurs(mid + d, project)
    ensures ReadSerial(project + mid + d + ".blend", project) ==
      if |d| >= 4 then Some(DecimalValue(d)) else None
  {
    var x := project + (mid + d);
    var f := project + mid + d + ".blend";
    Regroup(project, mid, d, ".blend");
    StemOfGenerated(x, d);
    var stem := StripExt(f);
    assert stem == x;
    LastPieceAfterLeading(project, mid + d);
    var piece := Last(Split(stem, project));
    assert piece == mid + d;
    SingleLineSerials(mid, d);
    var suffix := FindAllSerials(piece);
    assert suffix == if |d| >= 4 then [d] else [];
  }

  /** The stem of a generated name ending in a digit is everything before `.blend`. */
  lemma StemOfGenerated(x: string, d: string)
    requires |d| >= 1 && AllDigits(d) && EndsWith(x, d)
    ensures StripExt(x + ".blend") == x
  {
    assert x[|x| - 1] == d[|d| - 1];
    assert RFind(x, '/') < |x| - 1 && x[|x| - 1] != '.';
    StripBlend(x);
  }

  /** The matches in one line made of `mid` and then digits. */
  lemma SingleLineSerials(mid: string, d: string)
    requires AllDigits(d)
    requires '\n' !in mid
    requires |mid| == 0 || !IsDigit(mid[|mid| - 1])
    ensures FindAllSerials(mid + d) == if |d| >= 4 then [d] else []
  {
    var line := mid + d;
    assert '\n' !in line by {
      assert forall i :: |mid| <= i < |line| ==> line[i] == d[i - |mid|];
    }
    NoNewline(line);
    SplitAbsent(line, "\n");
    TrailingDigitsAfter(mid, d);
    assert LineSerials([line]) == (if |d| >= 4 then [d] else []) + LineSerials([]);
  }

  /** With an empty project name every `.blend` file is a candidate. */
  lemma EmptyNameCandidates(listing: seq<string>)
    ensures |Candidates(listing, [])| > 0 <==> exists f :: f in listing && EndsWith(Lower(f), ".blend")
  {
    var files := Candidates(listing, []);
    if |files| > 0 {
      assert files[0] in files;
    }
  }

  /** Filtering a listing with one more name appended. */
  lemma CandidatesAppend(listing: seq<string>, f: string, project: string)
    ensures Candidates(listing + [f], project) ==
      Candidates(listing, project) + (if IsCandidate(f, project) then [f] else [])
  {
    assert (listing + [f])[..|listing|] == listing;
  }

  /** The loop over one more file: `highest` is raised to that file's serial if larger. */
  lemma HighestAppend(files: seq<string>, f: string, project: string)
    requires |project| > 0
    ensures Highest(Serials(files + [f], project)) ==
      match ReadSerial(f, project)
      case Some(v) => if v > Highest(Serials(files, project)) then v else Highest(Serials(files, project))
      case None => Highest(Serials(files, project))
  {
    var s := Serials(files + [f], project);
    assert s[..|files|] == Serials(files, project);
  }

  /** Saving under the name the scan proposes, `project + mid + number + ".blend"`, and
      scanning again: a number of four or more digits is read back and the next one is
      one more; a shorter one is not read back and comes out again unchanged. */
  lemma RescanAfterSave(files: seq<string>, project: string, mid: string, w: nat)
    requires |project| > 0
    requires '\n' !in mid && (|mid| == 0 || !IsDigit(mid[|mid| - 1]))
    requires !Occurs(mid + SaveNumberFromFiles(files, project, Spec(true, w)), project)
    ensures var n := SaveNumberFromFiles(files, project, Spec(true, w));
      var n' := SaveNumberFromFiles(files + [project + mid + n + ".blend"], project, Spec(true, w));
      && AllDigits(n) && AllDigits(n')
      && (|n| >= 4 ==> DecimalValue(n') == DecimalValue(n) + 1)
      && (|n| < 4 ==> n' == n)
  {
    RescanRead(files, project, mid, w);
    RescanUnread(files, project, mid, w);
  }

  lemma RescanRead(files: seq<string>, project: string, mid: string, w: nat)
    requires |project| > 0
    requires '\n' !in mid && (|mid| == 0 || !IsDigit(mid[|mid| - 1]))
    requires !Occurs(mid + SaveNumberFromFiles(files, project, Spec(true, w)), project)
    ensures var n := SaveNumberFromFiles(files, project, Spec(true, w));
      var n' := SaveNumberFromFiles(files + [project + mid + n + ".blend"], project, Spec(true, w));
      && AllDigits(n) && AllDigits(n')
      && (|n| >= 4 ==> DecimalValue(n') == DecimalValue(n) + 1)
  {
    var n := SaveNumberFromFiles(files, project, Spec(true, w));
    NumberValue(files, project, w);
    NumberValue(files + [project + mid + n + ".blend"], project, w);
    SavedHighest(files, project, mid, w);
  }

  lemma RescanUnread(files: seq<string>, project: string, mid: string, w: nat)
    requires |project| > 0
    requires '\n' !in mid && (|mid| == 0 || !IsDigit(mid[|mid| - 1]))
    requires !Occurs(mid + SaveNumberFromFiles(files, project, Spec(true, w)), project)
    ensures var n := SaveNumberFromFiles(files, project, Spec(true, w));
      |n| < 4 ==> SaveNumberFromFiles(files + [project + mid + n + ".blend"], project, Spec(true, w)) == n
  {
    var n := SaveNumberFromFiles(files, project, Spec(true, w));
    SavedHighest(files, project, mid, w);
    if |n| < 4 {
      SameHighest(files, files + [project + mid + n + ".blend"], project, Spec(true, w));
    }
  }

  /** A separator that ends in a digit is read as part of the serial: with width 3
      the first save of `P` with separator `1` writes `P1000.blend`, and the scan
      then reads 1000 from it and proposes 1001 instead of 000 again. */
  lemma DigitSeparatorJump()
    ensures SaveNumberFromFiles([], "P", Spec(true, 3)) == "000"
    ensures SaveNumberFromFiles(["P" + "1" + "000" + ".blend"], "P", Spec(true, 3)) == "1001"
  {
    FirstThreeDigits();
    var d := NatToString(1000);
    NumberTexts();
    DigitsAvoid(d, 'P');
    MergedSerial("P", d);
    var f := "P" + "1" + "000" + ".blend";
    SeparatorAndZeros();
    var vals := Serials([f], "P");
    assert vals == [Some(1000)];
    assert Highest(vals) == 1000 by {
      assert vals[..0] == [];
    }
    assert Repeat('0', 3 - 4) == [];
  }

  lemma SeparatorAndZeros()
    ensures "P" + "1" + "000" + ".blend" == "P" + "1000" + ".blend"
  {
  }

  lemma FirstThreeDigits()
    ensures FormatInt(0, Spec(true, 3)) == "000"
  {
    assert NatToString(0) == "0";
    assert Repeat('0', 2) == "00" by {
      assert Repeat('0', 2) == ['0'] + Repeat('0', 1);
      assert Repeat('0', 1) == ['0'] + Repeat('0', 0);
    }
  }

  lemma NumberTexts()
    ensures NatToString(1000) == "1000" && NatToString(1001) == "1001"
  {
    assert NatToString(10) == NatToString(1) + [DigitChar(0)];
    assert NatToString(100) == NatToString(10) + [DigitChar(0)];
    assert NatToString(1000) == NatToString(100) + [DigitChar(0)];
    assert NatToString(1001) == NatToString(100) + [DigitChar(1)];
  }

  /** A run of digits never contains a non-digit character. */
  lemma DigitsAvoid(d: string, c: char)
    requires AllDigits(d) && !IsDigit(c)
    ensures !Occurs(d, [c])
  {
    forall i | 0 <= i <= |d|
      ensures !OccursAt(d, [c], i)
    {
      if i + 1 <= |d| {
        assert d[i..i + 1][0] == d[i];
      }
    }
  }

  /** Digits directly after the project name are read back whole. */
  lemma MergedSerial(project: string, d: string)
    requires |project| > 0 && AllDigits(d) && |d| >= 4
    requires !Occurs(d, project)
    ensures ReadSerial(project + d + ".blend", project) == Some(DecimalValue(d))
  {
    assert "" + d == d && project + "" == project;
    ReadBack(project, "", d);
  }

  /** The number depends on the files only through their highest serial. */
  lemma SameHighest(files: seq<string>, files': seq<string>, project: string, spec: Spec)
    requires |project| > 0
    requires Highest(Serials(files, project)) == Highest(Serials(files', project))
    ensures SaveNumberFromFiles(files, project, spec) == SaveNumberFromFiles(files', project, spec)
  {
    var h := Highest(Serials(files, project));
    assert SaveNumberFromFiles(files, project, spec) == FormatInt(h + 1, spec);
    assert SaveNumberFromFiles(files', project, spec) == FormatInt(h + 1, spec);
  }

  /** The zero-filled number is digits denoting one more than the highest serial. */
  lemma NumberValue(files: seq<string>, project: string, w: nat)
    requires |project| > 0 || |files| == 0
    ensures var n := SaveNumberFromFiles(files, project, Spec(true, w));
      AllDigits(n) && DecimalValue(n) == Highest(Serials(files, project)) + 1
  {
    var h := Highest(Serials(files, project));
    assert SaveNumberFromFiles(files, project, Spec(true, w)) == FormatInt(h + 1, Spec(true, w));
    ZeroFill(h + 1, w);
  }

  /** The highest serial after the save: one more when the number is read back. */
  lemma SavedHighest(files: seq<string>, project: string, mid: string, w: nat)
    requires |project| > 0
    requires '\n' !in mid && (|mid| == 0 || !IsDigit(mid[|mid| - 1]))
    requires !Occurs(mid + SaveNumberFromFiles(files, project, Spec(true, w)), project)
    ensures var h := Highest(Serials(files, project));
      var n := SaveNumberFromFiles(files, project, Spec(true, w));
      Highest(Serials(files + [project + mid + n + ".blend"], project)) == if |n| >= 4 then h + 1 else h
  {
    var h := Highest(Serials(files, project));
    var n := SaveNumberFromFiles(files, project, Spec(true, w));
    var f := project + mid + n + ".blend";
    ZeroFill(h + 1, w);
    ReadBack(project, mid, n);
    HighestAppend(files, f, project);
  }
}
