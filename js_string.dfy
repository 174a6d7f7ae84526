/** String.prototype.replace called with a string pattern and a string replacement: only the
    first occurrence of the pattern is replaced, and the replacement text is expanded by the
    substitution rules for `$$`, `$&`, `` $` `` and `$'` (a string pattern has no capture
    groups, so `$1` and `$<` stay literal). */
module JsString {
  import opened JsValues

  predicate OccursAt(s: string, pat: string, j: nat)
  {
    j + |pat| <= |s| && s[j..j + |pat|] == pat
  }

  /** The first index at or after `from` where `pat` occurs in `s`. */
  function IndexFrom(s: string, pat: string, from: nat): (r: Option<nat>)
    ensures r.Some? ==> from <= r.value && OccursAt(s, pat, r.value)
    ensures r.Some? ==> forall j :: from <= j < r.value ==> !OccursAt(s, pat, j)
    ensures r.None? ==> forall j :: from <= j ==> !OccursAt(s, pat, j)
    decreases |s| - from
  {
    if from + |pat| > |s| then None
    else if s[from..from + |pat|] == pat then Some(from)
    else IndexFrom(s, pat, from + 1)
  }

  /** String.prototype.indexOf. */
  function IndexOf(s: string, pat: string): (r: Option<nat>)
    ensures r.Some? ==> OccursAt(s, pat, r.value)
    ensures r.Some? ==> forall j :: 0 <= j < r.value ==> !OccursAt(s, pat, j)
    ensures r.None? ==> forall j :: 0 <= j ==> !OccursAt(s, pat, j)
  {
    IndexFrom(s, pat, 0)
  }

  predicate NoDollar(s: string)
  {
    forall i :: 0 <= i < |s| ==> s[i] != '$'
  }

  /** GetSubstitution for a match without captures: `matched` is the matched text, `before`
      and `after` the parts of the subject string around it. A replacement without `$` is
      inserted literally. */
  function Substitution(repl: string, matched: string, before: string, after: string): (r: string)
    ensures NoDollar(repl) ==> r == repl
    decreases |repl|
  {
    if |repl| >= 2 && repl[0] == '$' then
      if repl[1] == '$' then "$" + Substitution(repl[2..], matched, before, after)
      else if repl[1] == '&' then matched + Substitution(repl[2..], matched, before, after)
      else if repl[1] == '`' then before + Substitution(repl[2..], matched, before, after)
      else if repl[1] == '\'' then after + Substitution(repl[2..], matched, before, after)
      else "$" + Substitution(repl[1..], matched, before, after)
    else if |repl| == 0 then ""
    else
      assert NoDollar(repl) ==> NoDollar(repl[1..]) by {
        if NoDollar(repl) {
          forall i | 0 <= i < |repl[1..]| ensures repl[1..][i] != '$' {
            assert repl[1..][i] == repl[i + 1];
          }
        }
      }
      [repl[0]] + Substitution(repl[1..], matched, before, after)
  }

  /** `s.replace(pat, repl)` with string arguments: a string without the pattern is kept, and
      otherwise only the first occurrence is replaced. */
  function Replace(s: string, pat: string, repl: string): (r: string)
    ensures IndexOf(s, pat).None? ==> r == s
  {
    match IndexOf(s, pat)
    case None => s
    case Some(p) =>
      s[..p] + Substitution(repl, pat, s[..p], s[p + |pat|..]) + s[p + |pat|..]
  }

  /** When the subject starts with the pattern, the first occurrence is the prefix, so the
      replacement acts on the prefix alone and keeps the rest of the string. */
  lemma ReplacePrefix(pat: string, rest: string, repl: string)
    ensures Replace(pat + rest, pat, repl) == Substitution(repl, pat, "", rest) + rest
  {
    var s := pat + rest;
    assert s[0..0 + |pat|] == pat;
    assert IndexFrom(s, pat, 0) == Some(0);
    assert s[..0] == "" && s[0 + |pat|..] == rest;
  }

  /** With a replacement free of `$`, the first-occurrence replace is a prefix replace. */
  lemma ReplacePrefixLiteral(pat: string, rest: string, repl: string)
    requires NoDollar(repl)
    ensures Replace(pat + rest, pat, repl) == repl + rest
  {
    ReplacePrefix(pat, rest, repl);
  }

  /** A replacement containing `$&` re-inserts the matched prefix: the result is not the
      literal replacement followed by the rest. */
  lemma ReplaceExpandsMatch()
    ensures Replace("/home/a/x", "/home/a", "r$&") == "r/home/a/x"
  {
    ReplacePrefix("/home/a", "/x", "r$&");
    assert "/home/a" + "/x" == "/home/a/x";
    assert Substitution("r$&", "/home/a", "", "/x") == "r/home/a" by {
      assert "r$&"[1..] == "$&";
      assert "$&"[2..] == "";
    }
  }
}
