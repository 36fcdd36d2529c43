/**
 * The part of JavaScript's `String.prototype.replace` that the proxy relies on:
 * a string (not a regular expression) search value, whose first occurrence is
 * located as `indexOf` does and replaced by the replacement string after the
 * replacement's `$` patterns have been expanded (GetSubstitution, section 22.1.3.19.1
 * of ECMA-262, with no capture groups).
 */
module JsString {
  import opened Wrappers

  /** `pat` occurs in `s` starting at index `j`. */
  predicate MatchesAt(s: string, pat: string, j: int) {
    0 <= j && j + |pat| <= |s| && s[j..j + |pat|] == pat
  }

  /** `s` contains no `$`, so no replacement pattern can start in it. */
  predicate DollarFree(s: string) {
    forall i :: 0 <= i < |s| ==> s[i] != '$'
  }

  /** `s.indexOf(pat, from)`: the least index at or after `from` where `pat` occurs. */
  function IndexOfFrom(s: string, pat: string, from: nat): (r: Option<nat>)
    requires from <= |s|
    ensures r.Some? ==> from <= r.value && MatchesAt(s, pat, r.value)
    ensures r.Some? ==> forall j :: from <= j < r.value ==> !MatchesAt(s, pat, j)
    ensures r.None? ==> forall j :: from <= j ==> !MatchesAt(s, pat, j)
    decreases |s| - from
  {
    if from + |pat| > |s| then None
    else if s[from..from + |pat|] == pat then Some(from)
    else IndexOfFrom(s, pat, from + 1)
  }

  /** `s.indexOf(pat)`: the first occurrence of `pat` in `s`, if any. */
  function IndexOf(s: string, pat: string): (r: Option<nat>)
    ensures r.Some? <==> exists j :: MatchesAt(s, pat, j)
    ensures r.Some? ==> MatchesAt(s, pat, r.value) && forall j :: 0 <= j < r.value ==> !MatchesAt(s, pat, j)
  {
    IndexOfFrom(s, pat, 0)
  }

  /** What `$c` stands for, for `c` one of `$`, `&`, `` ` `` and `'`. */
  function PatternValue(c: char, matched: string, before: string, after: string): string
  {
    match c
    case '$' => "$"
    case '&' => matched
    case '`' => before
    case _ => after
  }

  /**
   * GetSubstitution with no capture groups: `$$` gives `$`, `$&` the matched
   * text, `` $` `` the text before the match and `$'` the text after it; any
   * other `$` (including `$1` and `$<`, which have no group to refer to) stands
   * for itself.
   */
  function Expand(replacement: string, matched: string, before: string, after: string): (r: string)
    ensures DollarFree(replacement) ==> r == replacement
    decreases |replacement|
  {
    if |replacement| == 0 then ""
    else if replacement[0] == '$' && |replacement| >= 2 && replacement[1] in "$&`'" then
      PatternValue(replacement[1], matched, before, after) + Expand(replacement[2..], matched, before, after)
    else
      assert DollarFree(replacement) ==> DollarFree(replacement[1..]) by {
        if DollarFree(replacement) {
          DollarFreeTail(replacement);
        }
      }
      assert replacement == [replacement[0]] + replacement[1..];
      [replacement[0]] + Expand(replacement[1..], matched, before, after)
  }

  /** Dropping the first character keeps a text free of `$`. */
  lemma DollarFreeTail(s: string)
    requires |s| > 0 && DollarFree(s)
    ensures DollarFree(s[1..])
  {
    forall i | 0 <= i < |s[1..]| ensures s[1..][i] != '$' {
      assert s[1..][i] == s[i + 1];
    }
  }

  /** A first character other than `$` is copied as it is. */
  lemma ExpandPlainHead(s: string, matched: string, before: string, after: string)
    requires |s| > 0 && s[0] != '$'
    ensures Expand(s, matched, before, after) == [s[0]] + Expand(s[1..], matched, before, after)
  {
  }

  /** Text without `$` in front of the rest of a replacement is copied as it is. */
  lemma {:induction false} ExpandPlainPrefix(plain: string, rest: string, matched: string, before: string, after: string)
    requires DollarFree(plain)
    ensures Expand(plain + rest, matched, before, after) == plain + Expand(rest, matched, before, after)
    decreases |plain|
  {
    if |plain| > 0 {
      var s := plain + rest;
      var e := Expand(rest, matched, before, after);
      assert s[0] == plain[0];
      assert s[1..] == plain[1..] + rest;
      ExpandPlainHead(s, matched, before, after);
      DollarFreeTail(plain);
      ExpandPlainPrefix(plain[1..], rest, matched, before, after);
      assert [plain[0]] + (plain[1..] + e) == ([plain[0]] + plain[1..]) + e;
      assert plain == [plain[0]] + plain[1..];
    } else {
      assert plain + rest == rest;
    }
  }

  /** A two-character `$` pattern after `$`-free text expands on its own, as does what follows it. */
  lemma ExpandPatternAfterPlain(plain: string, c: char, rest: string, matched: string, before: string, after: string)
    requires DollarFree(plain)
    requires c in "$&`'"
    ensures Expand(plain + ['$', c] + rest, matched, before, after)
         == plain + PatternValue(c, matched, before, after) + Expand(rest, matched, before, after)
  {
    var tail := ['$', c] + rest;
    ExpandPlainPrefix(plain, tail, matched, before, after);
    assert plain + ['$', c] + rest == plain + tail;
    assert tail[0] == '$' && tail[1] == c;
    assert tail[2..] == rest;
  }

  /**
   * A `$` followed by any other character (`$1`, `$<` and the like, which have
   * no capture group to refer to) stands for itself, wherever it follows text
   * without `$`.
   */
  lemma ExpandOtherDollar(plain: string, c: char, rest: string, matched: string, before: string, after: string)
    requires DollarFree(plain)
    requires c != '$' && c != '&' && c != '`' && c != '\''
    ensures Expand(plain + ['$', c] + rest, matched, before, after)
         == plain + ['$', c] + Expand(rest, matched, before, after)
  {
    var tail := ['$', c] + rest;
    ExpandPlainPrefix(plain, tail, matched, before, after);
    assert plain + ['$', c] + rest == plain + tail;
    assert tail[0] == '$' && tail[1] == c;
    assert tail[1..] == [c] + rest;
    ExpandPlainHead([c] + rest, matched, before, after);
    assert ([c] + rest)[1..] == rest;
    assert Expand(tail, matched, before, after) == ['$'] + ([c] + Expand(rest, matched, before, after));
    assert plain + (['$'] + ([c] + Expand(rest, matched, before, after)))
        == plain + ['$', c] + Expand(rest, matched, before, after);
  }

  /** A `$` at the very end of a replacement stands for itself. */
  lemma ExpandTrailingDollar(plain: string, matched: string, before: string, after: string)
    requires DollarFree(plain)
    ensures Expand(plain + "$", matched, before, after) == plain + "$"
  {
    ExpandPlainPrefix(plain, "$", matched, before, after);
    assert Expand("$", matched, before, after) == "$" + Expand("", matched, before, after);
  }

  /**
   * `$$` stands for a single `$` wherever it follows text without `$`, and the
   * rest of the replacement is expanded on its own.
   */
  lemma ExpandDoubleDollar(plain: string, rest: string, matched: string, before: string, after: string)
    requires DollarFree(plain)
    ensures Expand(plain + "$$" + rest, matched, before, after) == plain + "$" + Expand(rest, matched, before, after)
  {
    ExpandPatternAfterPlain(plain, '$', rest, matched, before, after);
  }

  /**
   * `$&`, `` $` `` and `$'` stand for the match and for the text before and
   * after it, wherever they follow text without `$`.
   */
  lemma ExpandMatchReferences(plain: string, rest: string, matched: string, before: string, after: string)
    requires DollarFree(plain)
    ensures Expand(plain + "$&" + rest, matched, before, after) == plain + matched + Expand(rest, matched, before, after)
    ensures Expand(plain + "$`" + rest, matched, before, after) == plain + before + Expand(rest, matched, before, after)
    ensures Expand(plain + "$'" + rest, matched, before, after) == plain + after + Expand(rest, matched, before, after)
  {
    var e := Expand(rest, matched, before, after);
    assert Expand(plain + "$&" + rest, matched, before, after) == plain + matched + e by {
      ExpandPatternAfterPlain(plain, '&', rest, matched, before, after);
    }
    assert Expand(plain + "$`" + rest, matched, before, after) == plain + before + e by {
      ExpandPatternAfterPlain(plain, '`', rest, matched, before, after);
    }
    ExpandPatternAfterPlain(plain, '\'', rest, matched, before, after);
  }

  /** `s.replace(pat, replacement)` with a string `pat`: only the first occurrence is replaced. */
  function Replace(s: string, pat: string, replacement: string): (r: string)
    ensures (forall j :: !MatchesAt(s, pat, j)) ==> r == s
  {
    match IndexOf(s, pat)
    case None => s
    case Some(p) => s[..p] + Expand(replacement, pat, s[..p], s[p + |pat|..]) + s[p + |pat|..]
  }

  /**
   * When `pat` first occurs in `u + pat + v` right after `u`, replacing it
   * keeps `u` and `v` and puts the expanded replacement between them.
   */
  lemma ReplaceAtFirstOccurrence(u: string, pat: string, v: string, replacement: string)
    requires forall j :: 0 <= j < |u| ==> !MatchesAt(u + pat + v, pat, j)
    ensures Replace(u + pat + v, pat, replacement) == u + Expand(replacement, pat, u, v) + v
  {
    var s := u + pat + v;
    assert s[|u|..|u| + |pat|] == pat;
    assert MatchesAt(s, pat, |u|);
    var p := IndexOf(s, pat).value;
    assert p == |u|;
    assert s[..p] == u;
    assert s[p + |pat|..] == v;
  }
}
