/**
  Placeholder substitution as the add-ons do it: a fixed list of `str.replace`
  calls, each replacing every `{name}` token of one kind in the whole string.
  Text a step inserts is scanned by the steps after it, never by the ones before.
 */
module Substitution {
  import opened PyStr

  /** One `s = s.replace(token, value)` line. */
  datatype Step = Step(token: string, value: string)

  /** A placeholder token: `{`, at least one more character, no further `{`. */
  predicate IsToken(t: string) {
    |t| >= 2 && t[0] == '{' && '{' !in t[1..]
  }

  /** Text with no `{` contains no placeholder and is never touched by a step. */
  predicate Plain(s: string) {
    '{' !in s
  }

  predicate AllTokens(steps: seq<Step>) {
    forall j :: 0 <= j < |steps| ==> IsToken(steps[j].token)
  }

  /** The replace calls, applied in order. */
  function ApplySteps(s: string, steps: seq<Step>): string
    requires AllTokens(steps)
    decreases |steps|
  {
    if |steps| == 0 then s
    else ApplySteps(Replace(s, steps[0].token, steps[0].value), steps[1..])
  }

  /** What a lone token turns into: the value of the first step for it, or the
      token itself when no step names it. */
  function Lookup(t: string, steps: seq<Step>): string
    decreases |steps|
  {
    if |steps| == 0 then t
    else if steps[0].token == t then steps[0].value
    else Lookup(t, steps[1..])
  }

  /** Tokens that could be confused: some other step's token shares the second character. */
  predicate Distinguishable(t: string, steps: seq<Step>)
    requires |t| >= 2 && AllTokens(steps)
  {
    forall j :: 0 <= j < |steps| ==> steps[j].token == t || steps[j].token[1] != t[1]
  }

  /** Plain text in front passes through every step unchanged. */
  lemma {:induction false} PlainPrefix(a: string, b: string, steps: seq<Step>)
    requires AllTokens(steps)
    requires Plain(a)
    ensures ApplySteps(a + b, steps) == a + ApplySteps(b, steps)
    decreases |steps|
  {
    if |steps| > 0 {
      var st := steps[0];
      ReplacePlainPrefix(a, b, st.token, st.value);
      PlainPrefix(a, Replace(b, st.token, st.value), steps[1..]);
    }
  }

  /** Text at the end that holds the closing character of no token passes through
      every step unchanged, whatever comes before it. */
  lemma {:induction false} KeepsTail(s: string, t: string, steps: seq<Step>)
    requires AllTokens(steps)
    requires forall j :: 0 <= j < |steps| ==> Last(steps[j].token) !in t
    ensures ApplySteps(s + t, steps) == ApplySteps(s, steps) + t
    decreases |steps|
  {
    if |steps| > 0 {
      var st := steps[0];
      assert Last(st.token) == st.token[|st.token| - 1];
      ReplaceKeepsTail(s, t, st.token, st.value);
      KeepsTail(Replace(s, st.token, st.value), t, steps[1..]);
    }
  }

  /** Plain text is left exactly as it is. */
  lemma PlainUnchanged(a: string, steps: seq<Step>)
    requires AllTokens(steps)
    requires Plain(a)
    ensures ApplySteps(a, steps) == a
  {
    PlainPrefix(a, [], steps);
    assert a + [] == a;
    EmptyUnchanged(steps);
  }

  lemma {:induction false} EmptyUnchanged(steps: seq<Step>)
    requires AllTokens(steps)
    ensures ApplySteps([], steps) == []
    decreases |steps|
  {
    if |steps| > 0 {
      ReplaceShort([], steps[0].token, steps[0].value);
      EmptyUnchanged(steps[1..]);
    }
  }

  /** A token in front becomes its value, provided that value is plain; the rest of
      the string is substituted independently. */
  lemma {:induction false} TokenPrefix(t: string, b: string, steps: seq<Step>)
    requires IsToken(t) && AllTokens(steps)
    requires Distinguishable(t, steps)
    requires Plain(Lookup(t, steps))
    ensures ApplySteps(t + b, steps) == Lookup(t, steps) + ApplySteps(b, steps)
    decreases |steps|
  {
    if |steps| > 0 {
      var st := steps[0];
      var b' := Replace(b, st.token, st.value);
      if st.token == t {
        ReplaceHead(t, b, st.value);
        PlainPrefix(st.value, b', steps[1..]);
      } else {
        assert (t + b)[1] == t[1] != st.token[1];
        ReplaceSkipToken(t, b, st.token, st.value);
        TokenPrefix(t, b', steps[1..]);
      }
    }
  }

  /** A token no step can match passes through unchanged. */
  lemma {:induction false} UnnamedToken(t: string, b: string, steps: seq<Step>)
    requires IsToken(t) && AllTokens(steps)
    requires forall j :: 0 <= j < |steps| ==> steps[j].token[1] != t[1]
    ensures ApplySteps(t + b, steps) == t + ApplySteps(b, steps)
    decreases |steps|
  {
    if |steps| > 0 {
      var st := steps[0];
      assert (t + b)[1] == t[1] != st.token[1];
      ReplaceSkipToken(t, b, st.token, st.value);
      UnnamedToken(t, Replace(b, st.token, st.value), steps[1..]);
    }
  }

  /** `replace` of a token leaves another token, and plain text, alone. */
  lemma ReplaceOtherToken(tok: string, rest: string, pat: string, rep: string)
    requires IsToken(tok) && IsToken(pat) && tok[1] != pat[1]
    ensures Replace(tok + rest, pat, rep) == tok + Replace(rest, pat, rep)
  {
    assert (tok + rest)[1] == tok[1];
    ReplaceSkipToken(tok, rest, pat, rep);
  }

  lemma ReplacePlain(a: string, pat: string, rep: string)
    requires Plain(a) && IsToken(pat)
    ensures Replace(a, pat, rep) == a
  {
    ReplacePlainPrefix(a, [], pat, rep);
    ReplaceShort([], pat, rep);
    assert a + [] == a;
  }

  /** Two tokens behind plain text. */
  lemma TwoTokens(pre: string, t1: string, t2: string, b: string, steps: seq<Step>)
    requires AllTokens(steps) && Plain(pre) && IsToken(t1) && IsToken(t2)
    requires Distinguishable(t1, steps) && Plain(Lookup(t1, steps))
    requires Distinguishable(t2, steps) && Plain(Lookup(t2, steps))
    ensures ApplySteps(pre + (t1 + (t2 + b)), steps)
      == pre + (Lookup(t1, steps) + (Lookup(t2, steps) + ApplySteps(b, steps)))
  {
    TokenPrefix(t2, b, steps);
    TokenPrefix(t1, t2 + b, steps);
    PlainPrefix(pre, t1 + (t2 + b), steps);
  }

  /** A token, plain text, another token and plain text. */
  lemma TokenPlainToken(t1: string, a: string, t2: string, c: string, steps: seq<Step>)
    requires AllTokens(steps) && IsToken(t1) && IsToken(t2) && Plain(a) && Plain(c)
    requires Distinguishable(t1, steps) && Plain(Lookup(t1, steps))
    requires Distinguishable(t2, steps) && Plain(Lookup(t2, steps))
    ensures ApplySteps(t1 + (a + (t2 + c)), steps)
      == Lookup(t1, steps) + (a + (Lookup(t2, steps) + c))
  {
    PlainUnchanged(c, steps);
    TokenPrefix(t2, c, steps);
    PlainPrefix(a, t2 + c, steps);
    TokenPrefix(t1, a + (t2 + c), steps);
  }

  /** Behind plain text, a token no step names and then a token some step replaces. */
  lemma KeptThenToken(pre: string, kept: string, t: string, b: string, steps: seq<Step>)
    requires AllTokens(steps) && Plain(pre) && IsToken(kept) && IsToken(t)
    requires forall j :: 0 <= j < |steps| ==> steps[j].token[1] != kept[1]
    requires Distinguishable(t, steps) && Plain(Lookup(t, steps))
    ensures ApplySteps(pre + (kept + (t + b)), steps)
      == pre + (kept + (Lookup(t, steps) + ApplySteps(b, steps)))
  {
    TokenPrefix(t, b, steps);
    UnnamedToken(kept, t + b, steps);
    PlainPrefix(pre, kept + (t + b), steps);
  }

  /** No two steps' tokens share their second character. */
  predicate SecondCharsDistinct(steps: seq<Step>)
    requires AllTokens(steps)
  {
    forall i, j :: 0 <= i < j < |steps| ==> steps[i].token[1] != steps[j].token[1]
  }

  /** With distinct tokens, the token of step `k` turns into that step's value. */
  lemma {:induction false} LookupAt(steps: seq<Step>, k: int)
    requires AllTokens(steps) && SecondCharsDistinct(steps)
    requires 0 <= k < |steps|
    ensures Distinguishable(steps[k].token, steps)
    ensures Lookup(steps[k].token, steps) == steps[k].value
    decreases k
  {
    if k > 0 {
      assert steps[0].token != steps[k].token by {
        assert steps[0].token[1] != steps[k].token[1];
      }
      LookupAt(steps[1..], k - 1);
    }
  }
}
