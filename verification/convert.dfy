/**
  `convert_variables` of the project-version operator: six placeholders replaced in
  a fixed order over the whole joined path. `{num}` and `{chr}` are replaced only
  when the alphanumeric scheme has set them to non-empty text.
 */
module Convert {
  import opened Optional
  import opened PyStr
  import opened Substitution

  /** The date (`%Y-%m-%d`) and time (`%H-%M-%S`) text one call reads from the clock.
      The two are separate `now()` calls, so they need not come from the same instant. */
  datatype Stamp = Stamp(date: string, time: string)

  /** What the substitution reads: `project_name`, `version_separator`, and `project_num`
      and `project_chr`, which are `False` (here `None`) outside the alphanumeric scheme. */
  datatype Vars = Vars(project: string, separator: string, num: Option<string>, chr: Option<string>)

  /** Python truthiness of `project_num` / `project_chr`: set and non-empty. */
  predicate Truthy(o: Option<string>) {
    o.Some? && |o.value| > 0
  }

  /** A replace call that happens only when the value is set. */
  function WhenSet(token: string, o: Option<string>): seq<Step> {
    if Truthy(o) then [Step(token, o.value)] else []
  }

  /** The replace calls of lines 117-124, in order. */
  function Steps(v: Vars, now: Stamp): (r: seq<Step>)
    ensures AllTokens(r) && SecondCharsDistinct(r)
    ensures |r| >= 4 && r[0] == Step("{project}", v.project) && r[1] == Step("{separator}", v.separator)
    ensures r[2] == Step("{date}", now.date) && r[3] == Step("{time}", now.time)
    ensures r[4..] == WhenSet("{num}", v.num) + WhenSet("{chr}", v.chr)
  {
    var chr := WhenSet("{chr}", v.chr);
    var num := WhenSet("{num}", v.num) + chr;
    var time := [Step("{time}", now.time)] + num;
    var date := [Step("{date}", now.date)] + time;
    var sep := [Step("{separator}", v.separator)] + date;
    var all := [Step("{project}", v.project)] + sep;
    TokenFacts();
    NumChrSteps(v);
    ConsStep(Step("{time}", now.time), num);
    ConsStep(Step("{date}", now.date), time);
    ConsStep(Step("{separator}", v.separator), date);
    ConsStep(Step("{project}", v.project), sep);
    all
  }

  /** The six placeholders are tokens, told apart by their second characters. */
  lemma TokenFacts()
    ensures IsToken("{project}") && "{project}"[1] == 'p'
    ensures IsToken("{separator}") && "{separator}"[1] == 's'
    ensures IsToken("{date}") && "{date}"[1] == 'd'
    ensures IsToken("{time}") && "{time}"[1] == 't'
    ensures IsToken("{num}") && "{num}"[1] == 'n'
    ensures IsToken("{chr}") && "{chr}"[1] == 'c'
  {
    ProjectToken();
    SeparatorToken();
    DateToken();
    TimeToken();
    NumToken();
    ChrToken();
  }

  lemma ProjectToken() ensures IsToken("{project}") && "{project}"[1] == 'p' { }
  lemma SeparatorToken() ensures IsToken("{separator}") && "{separator}"[1] == 's' { }
  lemma DateToken() ensures IsToken("{date}") && "{date}"[1] == 'd' { }
  lemma TimeToken() ensures IsToken("{time}") && "{time}"[1] == 't' { }
  lemma NumToken() ensures IsToken("{num}") && "{num}"[1] == 'n' { }
  lemma ChrToken() ensures IsToken("{chr}") && "{chr}"[1] == 'c' { }

  /** The plain literals the templates hold besides their tokens. */
  lemma PlainLiterals()
    ensures Plain(".blend") && Plain("-")
  {
  }

  lemma PlainBlend(d: string)
    requires Plain(d)
    ensures Plain(d + ".blend")
  {
    PlainLiterals();
  }

  /** The templates written out as their tokens. */
  lemma SerialTemplate()
    ensures "{project}{separator}" == "{project}" + "{separator}"
  {
  }

  lemma AlphanumTemplate()
    ensures "{project}{num}{chr}" == "{project}" + "{num}" + "{chr}"
  {
  }

  lemma DateTimeTemplate()
    ensures "{project}{separator}{date}-{time}" == "{project}" + "{separator}" + "{date}" + "-" + "{time}"
  {
  }

  /** The optional `{num}` and `{chr}` steps. */
  lemma NumChrSteps(v: Vars)
    ensures var r := WhenSet("{num}", v.num) + WhenSet("{chr}", v.chr);
      && AllTokens(r) && SecondCharsDistinct(r)
      && forall j :: 0 <= j < |r| ==> r[j].token[1] == 'n' || r[j].token[1] == 'c'
  {
    var num := WhenSet("{num}", v.num);
    var chr := WhenSet("{chr}", v.chr);
    NumToken();
    ChrToken();
    WhenSetToken("{num}", v.num);
    WhenSetToken("{chr}", v.chr);
    if |num| == 1 {
      assert num == [num[0]];
      ConsStep(num[0], chr);
    } else {
      assert num + chr == chr;
    }
  }

  /** An optional step is at most one step for its token. */
  lemma WhenSetToken(token: string, o: Option<string>)
    requires IsToken(token)
    ensures var r := WhenSet(token, o);
      && |r| <= 1 && AllTokens(r) && SecondCharsDistinct(r)
      && forall j :: 0 <= j < |r| ==> r[j].token == token
  {
  }

  /** Putting a step in front keeps the tokens distinct when its second character is new. */
  lemma ConsStep(st: Step, rest: seq<Step>)
    requires IsToken(st.token) && AllTokens(rest) && SecondCharsDistinct(rest)
    requires forall j :: 0 <= j < |rest| ==> rest[j].token[1] != st.token[1]
    ensures AllTokens([st] + rest) && SecondCharsDistinct([st] + rest)
  {
    var all := [st] + rest;
    forall i, j | 0 <= i < j < |all|
      ensures all[i].token[1] != all[j].token[1]
    {
      if i > 0 {
        assert all[i] == rest[i - 1] && all[j] == rest[j - 1];
      }
    }
  }

  /** `convert_variables(string)`. */
  function ConvertVariables(s: string, v: Vars, now: Stamp): string {
    ApplySteps(s, Steps(v, now))
  }

  /** The `.blend` appended before the conversion comes out of it unchanged, after
      the converted path: no placeholder can reach into the extension. */
  lemma KeepsExtension(s: string, v: Vars, now: Stamp)
    ensures ConvertVariables(s + ".blend", v, now) == ConvertVariables(s, v, now) + ".blend"
  {
    ClosedTokens(v, now);
    assert '}' !in ".blend";
    KeepsTail(s, ".blend", Steps(v, now));
  }

  lemma ClosingBraces()
    ensures Last("{project}") == '}' && Last("{separator}") == '}' && Last("{date}") == '}'
    ensures Last("{time}") == '}' && Last("{num}") == '}' && Last("{chr}") == '}'
  {
  }

  /** Every placeholder ends in `}`. */
  lemma ClosedTokens(v: Vars, now: Stamp)
    ensures forall j :: 0 <= j < |Steps(v, now)| ==> Last(Steps(v, now)[j].token) == '}'
  {
    var st := Steps(v, now);
    ClosingBraces();
    ClosedOptional(v);
    forall j | 4 <= j < |st|
      ensures Last(st[j].token) == '}'
    {
      assert st[j] == st[4..][j - 4];
    }
  }

  lemma ClosedOptional(v: Vars)
    ensures var r := WhenSet("{num}", v.num) + WhenSet("{chr}", v.chr);
      forall j :: 0 <= j < |r| ==> Last(r[j].token) == '}'
  {
    ClosingBraces();
    var num := WhenSet("{num}", v.num);
    WhenSetToken("{num}", v.num);
    WhenSetToken("{chr}", v.chr);
    var r := num + WhenSet("{chr}", v.chr);
    forall j | 0 <= j < |r|
      ensures Last(r[j].token) == '}'
    {
      if j < |num| {
        assert r[j].token == "{num}";
      } else {
        assert r[j].token == "{chr}";
      }
    }
  }

  /** The value each placeholder becomes, and that each can be told apart from the others. */
  lemma Lookups(v: Vars, now: Stamp)
    ensures var st := Steps(v, now);
      && Distinguishable("{project}", st) && Lookup("{project}", st) == v.project
      && Distinguishable("{separator}", st) && Lookup("{separator}", st) == v.separator
      && Distinguishable("{date}", st) && Lookup("{date}", st) == now.date
      && Distinguishable("{time}", st) && Lookup("{time}", st) == now.time
  {
    var st := Steps(v, now);
    LookupAt(st, 0);
    LookupAt(st, 1);
    LookupAt(st, 2);
    LookupAt(st, 3);
  }

  lemma LookupNum(v: Vars, now: Stamp)
    requires Truthy(v.num)
    ensures Distinguishable("{num}", Steps(v, now))
    ensures Lookup("{num}", Steps(v, now)) == v.num.value
  {
    LookupAt(Steps(v, now), 4);
  }

  lemma LookupChr(v: Vars, now: Stamp)
    requires Truthy(v.chr)
    ensures Distinguishable("{chr}", Steps(v, now))
    ensures Lookup("{chr}", Steps(v, now)) == v.chr.value
  {
    var st := Steps(v, now);
    LookupAt(st, |st| - 1);
  }

  /** Text without a `{` in front of the rest — a directory part, say — comes
      through unchanged. */
  lemma PlainPart(a: string, b: string, v: Vars, now: Stamp)
    requires Plain(a)
    ensures ConvertVariables(a + b, v, now) == a + ConvertVariables(b, v, now)
  {
    PlainPrefix(a, b, Steps(v, now));
  }

  /** Text without a `{` is left exactly as it is. */
  lemma PlainWhole(a: string, v: Vars, now: Stamp)
    requires Plain(a)
    ensures ConvertVariables(a, v, now) == a
  {
    PlainUnchanged(a, Steps(v, now));
  }

  /** The serial template `{project}{separator}` followed by the number: project name,
      separator, number. */
  lemma SerialName(pre: string, d: string, v: Vars, now: Stamp)
    requires Plain(pre) && Plain(d) && Plain(v.project) && Plain(v.separator)
    ensures ConvertVariables(pre + ("{project}{separator}" + d) + ".blend", v, now)
      == pre + (v.project + v.separator + d) + ".blend"
  {
    var st := Steps(v, now);
    TokenFacts();
    Lookups(v, now);
    SerialTemplate();
    Nest(pre, "{project}", "{separator}", d, ".blend");
    PlainBlend(d);
    TwoTokens(pre, "{project}", "{separator}", d + ".blend", st);
    PlainUnchanged(d + ".blend", st);
    Nest(pre, v.project, v.separator, d, ".blend");
  }

  /** The date-time template: project name, separator, date, `-`, time. */
  lemma DateTimeName(pre: string, v: Vars, now: Stamp)
    requires Plain(pre) && Plain(v.project) && Plain(v.separator)
    requires Plain(now.date) && Plain(now.time)
    ensures ConvertVariables(pre + "{project}{separator}{date}-{time}" + ".blend", v, now)
      == pre + (v.project + v.separator + now.date + "-" + now.time) + ".blend"
  {
    var st := Steps(v, now);
    TokenFacts();
    Lookups(v, now);
    PlainLiterals();
    DateTimeTemplate();
    Nest7(pre, "{project}", "{separator}", "{date}", "-", "{time}", ".blend");
    TwoTokens(pre, "{project}", "{separator}", "{date}" + ("-" + ("{time}" + ".blend")), st);
    TokenPlainToken("{date}", "-", "{time}", ".blend", st);
    Nest7(pre, v.project, v.separator, now.date, "-", now.time, ".blend");
  }

  /** The alphanumeric template with a plain project name: project name, number, letter. */
  lemma AlphanumName(pre: string, v: Vars, now: Stamp)
    requires Plain(pre) && Plain(v.project)
    requires Truthy(v.num) && Plain(v.num.value) && Truthy(v.chr) && Plain(v.chr.value)
    ensures ConvertVariables(pre + "{project}{num}{chr}" + ".blend", v, now)
      == pre + (v.project + v.num.value + v.chr.value) + ".blend"
  {
    var st := Steps(v, now);
    TokenFacts();
    Lookups(v, now);
    LookupNum(v, now);
    LookupChr(v, now);
    PlainLiterals();
    AlphanumTemplate();
    Nest(pre, "{project}", "{num}", "{chr}", ".blend");
    TwoTokens(pre, "{project}", "{num}", "{chr}" + ".blend", st);
    TokenPrefix("{chr}", ".blend", st);
    PlainUnchanged(".blend", st);
    Nest(pre, v.project, v.num.value, v.chr.value, ".blend");
  }

  /** A project name of `{project}{separator}` (what an unversioned name becomes) is
      substituted first, so its `{separator}` is then replaced while its `{project}` is
      not looked at again: the result holds the literal `{project}`, the separator, the
      number and the letter, and nothing of the original name. */
  lemma UnversionedName(pre: string, v: Vars, now: Stamp)
    requires Plain(pre) && v.project == "{project}{separator}" && Plain(v.separator)
    requires Truthy(v.num) && Plain(v.num.value) && Truthy(v.chr) && Plain(v.chr.value)
    ensures ConvertVariables(pre + "{project}{num}{chr}" + ".blend", v, now)
      == pre + ("{project}" + v.separator + v.num.value + v.chr.value) + ".blend"
  {
    UnversionedFirst(pre, v, now);
    UnversionedRest(pre, v, now);
    Nest6(pre, "{project}", v.separator, v.num.value, v.chr.value, ".blend");
  }

  /** The first replace turns the `{project}` of the template into `{project}{separator}`. */
  lemma UnversionedFirst(pre: string, v: Vars, now: Stamp)
    requires Plain(pre) && v.project == "{project}{separator}"
    ensures ConvertVariables(pre + "{project}{num}{chr}" + ".blend", v, now)
      == ApplySteps(pre + ("{project}" + ("{separator}" + ("{num}" + ("{chr}" + ".blend")))), Steps(v, now)[1..])
  {
    ConvertFirst(pre + "{project}{num}{chr}" + ".blend", v, now);
    UnversionedReplace(pre);
  }

  lemma UnversionedReplace(pre: string)
    requires Plain(pre)
    ensures Replace(pre + "{project}{num}{chr}" + ".blend", "{project}", "{project}{separator}")
      == pre + ("{project}" + ("{separator}" + ("{num}" + ("{chr}" + ".blend"))))
  {
    var t0 := "{num}" + ("{chr}" + ".blend");
    TokenFacts();
    AlphanumTemplate();
    Nest(pre, "{project}", "{num}", "{chr}", ".blend");
    NumChrUntouched("{project}", "{project}{separator}");
    ReplaceOnce(pre, "{project}", t0, "{project}{separator}");
    SerialTemplate();
    Shift(pre, "{project}", "{separator}", t0);
  }

  lemma ConvertFirst(s: string, v: Vars, now: Stamp)
    ensures ConvertVariables(s, v, now) == ApplySteps(Replace(s, "{project}", v.project), Steps(v, now)[1..])
  {
    ApplyFirst(s, Steps(v, now));
  }

  lemma ApplyFirst(s: string, st: seq<Step>)
    requires AllTokens(st) && |st| > 0
    ensures ApplySteps(s, st) == ApplySteps(Replace(s, st[0].token, st[0].value), st[1..])
  {
  }

  /** The steps after the first on what it left. */
  lemma UnversionedRest(pre: string, v: Vars, now: Stamp)
    requires Plain(pre) && Plain(v.separator)
    requires Truthy(v.num) && Plain(v.num.value) && Truthy(v.chr) && Plain(v.chr.value)
    ensures ApplySteps(pre + ("{project}" + ("{separator}" + ("{num}" + ("{chr}" + ".blend")))), Steps(v, now)[1..])
      == pre + ("{project}" + (v.separator + (v.num.value + (v.chr.value + ".blend"))))
  {
    var st := Steps(v, now);
    var later := st[1..];
    TokenFacts();
    PlainLiterals();
    Lookups(v, now);
    LookupNum(v, now);
    LookupChr(v, now);
    DropProject("{separator}", st);
    DropProject("{num}", st);
    DropProject("{chr}", st);
    KeptThenToken(pre, "{project}", "{separator}", "{num}" + ("{chr}" + ".blend"), later);
    TokenPrefix("{num}", "{chr}" + ".blend", later);
    TokenPrefix("{chr}", ".blend", later);
    PlainUnchanged(".blend", later);
  }

  /** The archive path of an unversioned name, `{project}{separator}.blend` behind the
      version directory: the first replace doubles the separator placeholder, so the
      file is moved to the literal `{project}` followed by the separator twice. */
  lemma UnversionedArchive(pre: string, v: Vars, now: Stamp)
    requires Plain(pre) && v.project == "{project}{separator}" && Plain(v.separator)
    ensures ConvertVariables(pre + "{project}{separator}" + ".blend", v, now)
      == pre + ("{project}" + v.separator + v.separator) + ".blend"
  {
    var st := Steps(v, now);
    var later := st[1..];
    TokenFacts();
    PlainLiterals();
    ConvertFirst(pre + "{project}{separator}" + ".blend", v, now);
    ArchiveReplace(pre);
    Lookups(v, now);
    DropProject("{separator}", st);
    KeptThenToken(pre, "{project}", "{separator}", "{separator}" + ".blend", later);
    TokenPrefix("{separator}", ".blend", later);
    PlainUnchanged(".blend", later);
    Nest(pre, "{project}", v.separator, v.separator, ".blend");
  }

  lemma ArchiveReplace(pre: string)
    requires Plain(pre)
    ensures Replace(pre + "{project}{separator}" + ".blend", "{project}", "{project}{separator}")
      == pre + ("{project}" + ("{separator}" + ("{separator}" + ".blend")))
  {
    var t0 := "{separator}" + ".blend";
    var rep := "{project}{separator}";
    TokenFacts();
    PlainLiterals();
    SerialTemplate();
    ReplaceOtherToken("{separator}", ".blend", "{project}", rep);
    ReplacePlain(".blend", "{project}", rep);
    ReplaceOnce(pre, "{project}", t0, rep);
    Regroup3(pre, "{project}", "{separator}", ".blend");
    Shift(pre, "{project}", "{separator}", t0);
  }

  /** The rename source of an unversioned name: the saved path, which still holds the
      literal `{project}`, then `/{project}{separator}.blend`. The first replace turns
      both `{project}`s into `{project}{separator}`, so every `{project}` is followed by
      the separator once more than before. */
  lemma UnversionedSource(pre: string, mid: string, v: Vars, now: Stamp)
    requires Plain(pre) && Plain(mid) && v.project == "{project}{separator}" && Plain(v.separator)
    ensures ConvertVariables(pre + ("{project}" + (mid + ("{project}{separator}" + ".blend"))), v, now)
      == pre + ("{project}" + (v.separator + (mid + ("{project}" + (v.separator + (v.separator + ".blend"))))))
  {
    var s := pre + ("{project}" + (mid + ("{project}{separator}" + ".blend")));
    ConvertFirst(s, v, now);
    SourceReplace(pre, mid);
    SourceRest(pre, mid, v, now);
  }

  lemma SourceReplace(pre: string, mid: string)
    requires Plain(pre) && Plain(mid)
    ensures Replace(pre + ("{project}" + (mid + ("{project}{separator}" + ".blend"))), "{project}", "{project}{separator}")
      == pre + ("{project}" + ("{separator}" + (mid + ("{project}" + ("{separator}" + ("{separator}" + ".blend"))))))
  {
    var rep := "{project}{separator}";
    var tail := "{separator}" + ".blend";
    TokenFacts();
    PlainLiterals();
    SerialTemplate();
    ArchiveTail(rep);
    ReplaceAround(pre, "{project}", mid, "{project}{separator}" + ".blend", rep);
    Regroup4("{project}", "{separator}", mid, "{project}" + ("{separator}" + tail));
  }

  /** The archive name's own `{project}{separator}.blend` under the first replace. */
  lemma ArchiveTail(rep: string)
    ensures Replace("{project}{separator}" + ".blend", "{project}", rep) == rep + ("{separator}" + ".blend")
  {
    TokenFacts();
    PlainLiterals();
    assert "{project}{separator}" + ".blend" == "{project}" + ("{separator}" + ".blend");
    ReplaceOtherToken("{separator}", ".blend", "{project}", rep);
    ReplacePlain(".blend", "{project}", rep);
    ReplaceHead("{project}", "{separator}" + ".blend", rep);
  }

  /** A token between two plain runs is replaced, and the rest after them on its own. */
  lemma ReplaceAround(pre: string, pat: string, mid: string, t: string, rep: string)
    requires Plain(pre) && Plain(mid) && IsToken(pat)
    ensures Replace(pre + (pat + (mid + t)), pat, rep) == pre + (rep + (mid + Replace(t, pat, rep)))
  {
    ReplacePlainPrefix(mid, t, pat, rep);
    ReplaceHead(pat, mid + t, rep);
    ReplacePlainPrefix(pre, pat + (mid + t), pat, rep);
  }

  lemma Regroup4(a: string, b: string, c: string, d: string)
    ensures (a + b) + (c + d) == a + (b + (c + d))
  {
  }

  lemma SourceRest(pre: string, mid: string, v: Vars, now: Stamp)
    requires Plain(pre) && Plain(mid) && Plain(v.separator)
    ensures ApplySteps(pre + ("{project}" + ("{separator}" + (mid + ("{project}" + ("{separator}" + ("{separator}" + ".blend")))))), Steps(v, now)[1..])
      == pre + ("{project}" + (v.separator + (mid + ("{project}" + (v.separator + (v.separator + ".blend"))))))
  {
    var st := Steps(v, now);
    var later := st[1..];
    var b := "{project}" + ("{separator}" + ("{separator}" + ".blend"));
    TokenFacts();
    PlainLiterals();
    Lookups(v, now);
    DropProject("{separator}", st);
    TokenPrefix("{separator}", ".blend", later);
    PlainUnchanged(".blend", later);
    TokenPrefix("{separator}", "{separator}" + ".blend", later);
    UnnamedToken("{project}", "{separator}" + ("{separator}" + ".blend"), later);
    PlainPrefix(mid, b, later);
    KeptThenToken(pre, "{project}", "{separator}", mid + b, later);
  }

  /** A replace whose token stands right after plain text, with nothing of its own later. */
  lemma ReplaceOnce(pre: string, pat: string, t0: string, rep: string)
    requires Plain(pre) && IsToken(pat) && Replace(t0, pat, rep) == t0
    ensures Replace(pre + (pat + t0), pat, rep) == pre + (rep + t0)
  {
    ReplacePlainPrefix(pre, pat + t0, pat, rep);
    ReplaceHead(pat, t0, rep);
  }

  /** A replace for a token other than `{num}` and `{chr}` leaves their template alone. */
  lemma NumChrUntouched(pat: string, rep: string)
    requires IsToken(pat) && pat[1] != 'n' && pat[1] != 'c'
    ensures Replace("{num}" + ("{chr}" + ".blend"), pat, rep) == "{num}" + ("{chr}" + ".blend")
  {
    TokenFacts();
    PlainLiterals();
    ReplaceOtherToken("{num}", "{chr}" + ".blend", pat, rep);
    ReplaceOtherToken("{chr}", ".blend", pat, rep);
    ReplacePlain(".blend", pat, rep);
  }

  /** Dropping the `{project}` step keeps what the other tokens become. */
  lemma DropProject(t: string, st: seq<Step>)
    requires AllTokens(st) && SecondCharsDistinct(st) && |st| > 0 && st[0].token == "{project}"
    requires IsToken(t) && t[1] != 'p' && Distinguishable(t, st)
    ensures Distinguishable(t, st[1..]) && Lookup(t, st[1..]) == Lookup(t, st)
    ensures forall j :: 0 <= j < |st[1..]| ==> st[1..][j].token[1] != 'p'
  {
    assert forall j :: 0 <= j < |st[1..]| ==> st[1..][j] == st[j + 1];
  }

  /** `{num}` and `{chr}` stay in the text when the scheme leaves them unset or empty. */
  lemma UnsetKept(b: string, v: Vars, now: Stamp)
    requires !Truthy(v.num) && !Truthy(v.chr)
    ensures ConvertVariables("{num}" + b, v, now) == "{num}" + ConvertVariables(b, v, now)
    ensures ConvertVariables("{chr}" + b, v, now) == "{chr}" + ConvertVariables(b, v, now)
  {
    var st := Steps(v, now);
    TokenFacts();
    assert |st| == 4;
    UnnamedToken("{num}", b, st);
    UnnamedToken("{chr}", b, st);
  }
}
