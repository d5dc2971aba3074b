/**
  The Python string operations the add-ons rely on, over `seq<char>`:
  `startswith`, `endswith`, ASCII `lower`, `split(sep)` and `replace(old, new)`.
  Both `split` and `replace` find the separator left to right without overlap,
  which is what makes `replace` the same as joining the pieces of `split`.
 */
module PyStr {

  predicate IsDigit(c: char) { '0' <= c <= '9' }
  predicate IsLower(c: char) { 'a' <= c <= 'z' }
  predicate IsUpper(c: char) { 'A' <= c <= 'Z' }

  predicate AllDigits(s: string) {
    forall i :: 0 <= i < |s| ==> IsDigit(s[i])
  }

  predicate StartsWith(s: string, prefix: string) {
    |prefix| <= |s| && s[..|prefix|] == prefix
  }

  predicate EndsWith(s: string, suffix: string) {
    |suffix| <= |s| && s[|s| - |suffix|..] == suffix
  }

  /** `pat` appears in `s` starting at index `i`. */
  predicate OccursAt(s: string, pat: string, i: int) {
    0 <= i && i + |pat| <= |s| && s[i..i + |pat|] == pat
  }

  /** `pat` appears somewhere in `s`. */
  predicate Occurs(s: string, pat: string) {
    exists i | 0 <= i <= |s| :: OccursAt(s, pat, i)
  }

  /** Python's `str.lower` on one character; only ASCII letters are folded. */
  function LowerChar(c: char): char {
    if IsUpper(c) then (c as int + 32) as char else c
  }

  function Lower(s: string): (r: string)
    ensures |r| == |s|
    ensures forall i :: 0 <= i < |s| ==> r[i] == LowerChar(s[i])
  {
    seq(|s|, i requires 0 <= i < |s| => LowerChar(s[i]))
  }

  /** `s.split(sep)`: the pieces between the non-overlapping occurrences of `sep`. */
  function Split(s: string, sep: string): (r: seq<string>)
    requires |sep| > 0
    ensures |r| >= 1
    decreases |s|
  {
    if |s| < |sep| then [s]
    else if s[..|sep|] == sep then [[]] + Split(s[|sep|..], sep)
    else
      var t := Split(s[1..], sep);
      [[s[0]] + t[0]] + t[1..]
  }

  /** `sep.join(pieces)`. */
  function JoinWith(pieces: seq<string>, sep: string): string
    requires |pieces| >= 1
    decreases |pieces|
  {
    if |pieces| == 1 then pieces[0] else pieces[0] + sep + JoinWith(pieces[1..], sep)
  }

  /** `s.replace(old, new)`: every non-overlapping occurrence of `old`, found left to
      right, is replaced; the inserted text is never scanned again. */
  function Replace(s: string, pat: string, rep: string): string
    requires |pat| > 0
    decreases |s|
  {
    if |s| < |pat| then s
    else if s[..|pat|] == pat then rep + Replace(s[|pat|..], pat, rep)
    else [s[0]] + Replace(s[1..], pat, rep)
  }

  /** `pieces[-1]`. */
  function Last<T>(pieces: seq<T>): T
    requires |pieces| >= 1
  {
    pieces[|pieces| - 1]
  }

  lemma SuffixOfConcat(a: string, b: string)
    ensures EndsWith(a + b, b)
  {
    assert (a + b)[|a + b| - |b|..] == b;
  }

  /** Concatenation regrouped. These are kept apart so that callers whose operands are
      literals do not have to reason about the literals' characters. */
  lemma Regroup(a: string, b: string, c: string, e: string)
    ensures a + b + c + e == a + (b + c) + e
  {
  }

  lemma Regroup3(a: string, b: string, c: string, e: string)
    ensures a + (b + c) + e == a + (b + (c + e))
  {
  }

  lemma Shift(a: string, b: string, c: string, d: string)
    ensures a + (b + c + d) == a + (b + (c + d))
  {
  }

  lemma Nest(a: string, b: string, c: string, d: string, e: string)
    ensures a + (b + c + d) + e == a + (b + (c + (d + e)))
  {
  }

  lemma Nest6(a: string, b: string, c: string, d: string, e: string, f: string)
    ensures a + (b + c + d + e) + f == a + (b + (c + (d + (e + f))))
  {
  }

  lemma Nest7(a: string, b: string, c: string, d: string, e: string, f: string, g: string)
    ensures a + (b + c + d + e + f) + g == a + (b + (c + (d + (e + (f + g)))))
  {
  }

  /** Joining the pieces of a split with the separator gives back the string. */
  lemma {:induction false} SplitJoin(s: string, sep: string)
    requires |sep| > 0
    ensures JoinWith(Split(s, sep), sep) == s
    decreases |s|
  {
    if |s| < |sep| {
    } else if s[..|sep|] == sep {
      SplitJoin(s[|sep|..], sep);
      JoinLeadingEmpty(Split(s[|sep|..], sep), sep);
      assert s == sep + s[|sep|..];
    } else {
      var t := Split(s[1..], sep);
      SplitJoin(s[1..], sep);
      JoinConsHead([s[0]], t, sep);
      assert s == [s[0]] + s[1..];
    }
  }

  /** An empty first piece contributes only the separator behind it. */
  lemma JoinLeadingEmpty(t: seq<string>, sep: string)
    requires |t| >= 1
    ensures JoinWith([[]] + t, sep) == sep + JoinWith(t, sep)
  {
    assert ([[]] + t)[1..] == t;
  }

  /** Prepending text to the first piece prepends it to the joined string. */
  lemma JoinConsHead(c: string, t: seq<string>, sep: string)
    requires |t| >= 1
    ensures JoinWith([c + t[0]] + t[1..], sep) == c + JoinWith(t, sep)
  {
    var u := [c + t[0]] + t[1..];
    if |t| > 1 {
      assert u[1..] == t[1..];
    }
  }

  /** Text after the string that lacks the pattern's last character cannot hold the
      end of a match, so `replace` passes it through untouched. */
  lemma {:induction false} ReplaceKeepsTail(s: string, t: string, pat: string, rep: string)
    requires |pat| > 0 && pat[|pat| - 1] !in t
    ensures Replace(s + t, pat, rep) == Replace(s, pat, rep) + t
    decreases |s|
  {
    var u := s + t;
    if |s| == 0 {
      assert u == t;
      ReplaceAbsentTail(t, pat, rep);
    } else if |s| >= |pat| {
      assert u[..|pat|] == s[..|pat|];
      if s[..|pat|] == pat {
        assert u[|pat|..] == s[|pat|..] + t;
        ReplaceKeepsTail(s[|pat|..], t, pat, rep);
      } else {
        assert u[1..] == s[1..] + t;
        ReplaceKeepsTail(s[1..], t, pat, rep);
      }
    } else if |u| >= |pat| {
      assert u[|pat| - 1] == t[|pat| - 1 - |s|];
      assert u[..|pat|] != pat by {
        assert u[..|pat|][|pat| - 1] == u[|pat| - 1];
      }
      assert u[1..] == s[1..] + t;
      ReplaceKeepsTail(s[1..], t, pat, rep);
      assert [s[0]] + s[1..] == s;
    }
  }

  lemma {:induction false} ReplaceAbsentTail(t: string, pat: string, rep: string)
    requires |pat| > 0 && pat[|pat| - 1] !in t
    ensures Replace(t, pat, rep) == t
    decreases |t|
  {
    if |t| >= |pat| {
      assert t[..|pat|] != pat by {
        assert t[..|pat|][|pat| - 1] == t[|pat| - 1];
      }
      assert forall c :: c in t[1..] ==> c in t;
      ReplaceAbsentTail(t[1..], pat, rep);
      assert [t[0]] + t[1..] == t;
    }
  }

  /** Python's identity `s.replace(old, new) == new.join(s.split(old))`. */
  lemma {:induction false} ReplaceIsJoinOfSplit(s: string, pat: string, rep: string)
    requires |pat| > 0
    ensures Replace(s, pat, rep) == JoinWith(Split(s, pat), rep)
    decreases |s|
  {
    if |s| < |pat| {
    } else if s[..|pat|] == pat {
      ReplaceIsJoinOfSplit(s[|pat|..], pat, rep);
      JoinLeadingEmpty(Split(s[|pat|..], pat), rep);
    } else {
      ReplaceIsJoinOfSplit(s[1..], pat, rep);
      JoinConsHead([s[0]], Split(s[1..], pat), rep);
    }
  }

  /** A string in which the separator never occurs splits into itself alone. */
  lemma {:induction false} SplitAbsent(s: string, sep: string)
    requires |sep| > 0
    requires !Occurs(s, sep)
    ensures Split(s, sep) == [s]
    decreases |s|
  {
    if |s| < |sep| {
    } else {
      assert !OccursAt(s, sep, 0);
      assert !Occurs(s[1..], sep) by {
        forall i | 0 <= i && i + |sep| <= |s[1..]|
          ensures !OccursAt(s[1..], sep, i)
        {
          assert !OccursAt(s, sep, i + 1);
          assert s[1..][i..i + |sep|] == s[i + 1..i + 1 + |sep|];
        }
      }
      SplitAbsent(s[1..], sep);
      assert [s[0]] + s[1..] == s;
    }
  }

  /** Splitting a string that starts with the separator: an empty first piece. */
  lemma SplitLeading(sep: string, t: string)
    requires |sep| > 0
    ensures Split(sep + t, sep) == [[]] + Split(t, sep)
  {
    assert (sep + t)[..|sep|] == sep;
    assert (sep + t)[|sep|..] == t;
  }

  /** The last piece of `p + t` split on `p` is `t` when `p` does not occur in `t`. */
  lemma LastPieceAfterLeading(p: string, t: string)
    requires |p| > 0
    requires !Occurs(t, p)
    ensures Last(Split(p + t, p)) == t
  {
    SplitLeading(p, t);
    SplitAbsent(t, p);
  }

  /** A string without `pat` is left unchanged by `replace`. */
  lemma ReplaceAbsent(s: string, pat: string, rep: string)
    requires |pat| > 0
    requires !Occurs(s, pat)
    ensures Replace(s, pat, rep) == s
  {
    ReplaceIsJoinOfSplit(s, pat, rep);
    SplitAbsent(s, pat);
  }

  /** An occurrence at the front is replaced, and scanning resumes after it. */
  lemma ReplaceHead(pat: string, rest: string, rep: string)
    requires |pat| > 0
    ensures Replace(pat + rest, pat, rep) == rep + Replace(rest, pat, rep)
  {
    assert (pat + rest)[..|pat|] == pat;
    assert (pat + rest)[|pat|..] == rest;
  }

  /** A prefix that never contains the first character of `pat` passes through. */
  lemma {:induction false} ReplacePlainPrefix(a: string, b: string, pat: string, rep: string)
    requires |pat| > 0
    requires pat[0] !in a
    ensures Replace(a + b, pat, rep) == a + Replace(b, pat, rep)
    decreases |a|
  {
    if |a| == 0 {
      assert a + b == b;
    } else {
      var s := a + b;
      assert a[0] in a;
      if |s| < |pat| {
        ReplaceShort(b, pat, rep);
      } else {
        assert s[..|pat|][0] == a[0] != pat[0];
        ReplaceStep(s, pat, rep);
        assert s[1..] == a[1..] + b;
        assert pat[0] !in a[1..];
        ReplacePlainPrefix(a[1..], b, pat, rep);
        ConsAssoc(a, Replace(b, pat, rep));
      }
    }
  }

  lemma ReplaceShort(s: string, pat: string, rep: string)
    requires |pat| > 0
    requires |s| < |pat|
    ensures Replace(s, pat, rep) == s
  {
  }

  /** A token `{xyz}` that is not `pat` itself passes through `replace` untouched. */
  lemma ReplaceSkipToken(tok: string, rest: string, pat: string, rep: string)
    requires |pat| > 0 && |tok| > 0
    requires pat[0] !in tok[1..]
    requires !StartsWith(tok + rest, pat)
    ensures Replace(tok + rest, pat, rep) == tok + Replace(rest, pat, rep)
  {
    var s := tok + rest;
    if |s| < |pat| {
      ReplaceShort(rest, pat, rep);
    } else {
      var t := tok[1..];
      assert s[1..] == t + rest;
      ReplaceStep(s, pat, rep);
      ReplacePlainPrefix(t, rest, pat, rep);
      ConsAssoc(tok, Replace(rest, pat, rep));
    }
  }

  /** Where `pat` does not start, `replace` keeps the first character and moves on. */
  lemma ReplaceStep(s: string, pat: string, rep: string)
    requires |pat| > 0 && |s| >= |pat| && !StartsWith(s, pat)
    ensures Replace(s, pat, rep) == [s[0]] + Replace(s[1..], pat, rep)
  {
  }

  lemma ConsAssoc(a: string, b: string)
    requires |a| > 0
    ensures [a[0]] + (a[1..] + b) == a + b
  {
    assert a == [a[0]] + a[1..];
  }
}
