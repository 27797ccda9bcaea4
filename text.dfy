/**
 * The JavaScript string operations (and the one SQL string predicate) that the
 * storage service relies on, with their exact edge cases:
 * `indexOf`, `lastIndexOf`, `replace` with a string pattern (which rewrites only
 * the first occurrence and interprets `$` patterns in the replacement), the
 * decimal rendering of a number in a template literal, and PostgreSQL `ILIKE`
 * `'%q%'` restricted to ASCII case folding.
 */
module Text {
  import opened Wrappers

  /** `pat` occurs in `s` starting at position `i`. */
  predicate OccursAt(s: string, pat: string, i: nat) {
    i + |pat| <= |s| && s[i..i + |pat|] == pat
  }

  /** The first occurrence of `pat` in `s` at or after `from`. */
  function IndexFrom(s: string, pat: string, from: nat): (r: Option<nat>)
    ensures r.Some? ==> from <= r.value && OccursAt(s, pat, r.value)
    ensures r.Some? ==> forall j: nat :: from <= j < r.value ==> !OccursAt(s, pat, j)
    ensures r.None? ==> forall j: nat :: from <= j ==> !OccursAt(s, pat, j)
    decreases |s| - from
  {
    if from + |pat| > |s| then None
    else if s[from..from + |pat|] == pat then Some(from)
    else IndexFrom(s, pat, from + 1)
  }

  /** JavaScript `s.indexOf(pat)`, with `None` for -1. */
  function IndexOf(s: string, pat: string): Option<nat> {
    IndexFrom(s, pat, 0)
  }

  /** An occurrence anywhere means `indexOf` finds one no later than it. */
  lemma IndexOfFinds(s: string, pat: string, i: nat)
    requires OccursAt(s, pat, i)
    ensures IndexOf(s, pat).Some? && IndexOf(s, pat).value <= i
  {
  }

  /** The last position before `n` holding `c`, or -1. */
  function LastIndexBefore(s: string, c: char, n: nat): (r: int)
    requires n <= |s|
    ensures -1 <= r < n
    ensures r >= 0 ==> s[r] == c
    ensures forall j :: r < j < n ==> s[j] != c
    decreases n
  {
    if n == 0 then -1
    else if s[n - 1] == c then n - 1
    else LastIndexBefore(s, c, n - 1)
  }

  /** JavaScript `s.lastIndexOf(c)` for a one-character argument. */
  function LastIndexOf(s: string, c: char): (r: int)
    ensures -1 <= r < |s|
    ensures r == -1 <==> c !in s
    ensures r >= 0 ==> s[r] == c && forall j :: r < j < |s| ==> s[j] != c
  {
    LastIndexBefore(s, c, |s|)
  }

  /** The last occurrence of `c` in `a + [c] + b`, when `b` holds no `c`, is the one between them. */
  lemma LastIndexOfAppend(a: string, c: char, b: string)
    requires c !in b
    ensures LastIndexOf(a + [c] + b, c) == |a|
  {
    var s := a + [c] + b;
    assert s[|a|] == c;
    assert forall j :: |a| < j < |s| ==> s[j] != c by {
      forall j | |a| < j < |s|
        ensures s[j] != c
      {
        assert s[j] == b[j - |a| - 1];
      }
    }
  }

  /**
   * The replacement text `String.prototype.replace` inserts for one match of a
   * string pattern (GetSubstitution with no capture groups): `$$` is `$`, `$&`
   * the matched text, `` $` `` the text before the match, `$'` the text after
   * it; every other `$` stands for itself.
   */
  function Substitute(rep: string, matched: string, before: string, after: string): string
    decreases |rep|
  {
    if |rep| == 0 then ""
    else if rep[0] == '$' && |rep| >= 2 && rep[1] == '$' then "$" + Substitute(rep[2..], matched, before, after)
    else if rep[0] == '$' && |rep| >= 2 && rep[1] == '&' then matched + Substitute(rep[2..], matched, before, after)
    else if rep[0] == '$' && |rep| >= 2 && rep[1] == '`' then before + Substitute(rep[2..], matched, before, after)
    else if rep[0] == '$' && |rep| >= 2 && rep[1] == '\'' then after + Substitute(rep[2..], matched, before, after)
    else [rep[0]] + Substitute(rep[1..], matched, before, after)
  }

  /** A replacement without `$` is inserted literally. */
  lemma {:induction false} SubstituteLiteral(rep: string, matched: string, before: string, after: string)
    requires '$' !in rep
    ensures Substitute(rep, matched, before, after) == rep
  {
    if |rep| > 0 {
      assert rep == [rep[0]] + rep[1..];
      SubstituteLiteral(rep[1..], matched, before, after);
    }
  }

  /** A `$`-free prefix passes through unchanged. */
  lemma {:induction false} SubstituteLiteralPrefix(x: string, y: string, matched: string, before: string, after: string)
    requires '$' !in x
    ensures Substitute(x + y, matched, before, after) == x + Substitute(y, matched, before, after)
  {
    if |x| == 0 {
      assert x + y == y;
    } else {
      assert x[0] in x;
      assert (x + y)[0] == x[0] != '$';
      assert (x + y)[1..] == x[1..] + y;
      assert x == [x[0]] + x[1..];
      assert '$' !in x[1..] by {
        assert forall c :: c in x[1..] ==> c in x;
      }
      SubstituteLiteralPrefix(x[1..], y, matched, before, after);
      calc {
        Substitute(x + y, matched, before, after);
        [x[0]] + Substitute(x[1..] + y, matched, before, after);
        [x[0]] + (x[1..] + Substitute(y, matched, before, after));
        x + Substitute(y, matched, before, after);
      }
    }
  }

  /**
   * Substitution splits at a point where the right part does not start with a
   * character that could complete a `$` pattern.
   */
  lemma {:induction false} SubstituteSplit(x: string, y: string, matched: string, before: string, after: string)
    requires |y| > 0 && y[0] != '$' && y[0] != '&' && y[0] != '`' && y[0] != '\''
    ensures Substitute(x + y, matched, before, after)
         == Substitute(x, matched, before, after) + Substitute(y, matched, before, after)
    decreases |x|
  {
    var xy := x + y;
    if |x| == 0 {
      assert xy == y;
    } else if x[0] == '$' && |x| >= 2 && (x[1] == '$' || x[1] == '&' || x[1] == '`' || x[1] == '\'') {
      assert xy[0] == x[0] && xy[1] == x[1] && |xy| >= 2;
      assert xy[2..] == x[2..] + y;
      SubstituteSplit(x[2..], y, matched, before, after);
    } else if x[0] == '$' && |x| == 1 {
      assert xy[0] == '$' && xy[1] == y[0];
      assert xy[1..] == y;
      assert Substitute(x, matched, before, after) == "$";
    } else {
      assert xy[0] == x[0];
      assert |x| >= 2 ==> xy[1] == x[1];
      assert xy[1..] == x[1..] + y;
      SubstituteSplit(x[1..], y, matched, before, after);
    }
  }

  /** A `$`-free middle part that starts with a blank survives substitution literally between its neighbours. */
  lemma SubstituteLiteralMiddle(x: string, mid: string, y: string, matched: string, before: string, after: string)
    requires '$' !in mid && |mid| > 0 && mid[0] == ' '
    ensures Substitute(x + mid + y, matched, before, after)
         == Substitute(x, matched, before, after) + mid + Substitute(y, matched, before, after)
  {
    var tail := mid + y;
    assert x + mid + y == x + tail;
    assert tail[0] == ' ';
    SubstituteSplit(x, tail, matched, before, after);
    SubstituteLiteralPrefix(mid, y, matched, before, after);
  }

  /** JavaScript `s.replace(pat, rep)` for a string `pat`: only the first occurrence is rewritten. */
  function ReplaceFirst(s: string, pat: string, rep: string): string {
    match IndexOf(s, pat)
    case None => s
    case Some(i) => s[..i] + Substitute(rep, pat, s[..i], s[i + |pat|..]) + s[i + |pat|..]
  }

  /** The result of a replacement at the first occurrence `i`. */
  lemma ReplaceFirstUnfold(s: string, pat: string, rep: string, i: nat)
    requires IndexOf(s, pat) == Some(i)
    ensures ReplaceFirst(s, pat, rep) == s[..i] + Substitute(rep, pat, s[..i], s[i + |pat|..]) + s[i + |pat|..]
  {
  }

  /** A replacement whose middle part is literal: the `$` patterns can only come from its two sides. */
  lemma ReplaceFirstMiddle(s: string, pat: string, x: string, mid: string, y: string, i: nat)
    requires IndexOf(s, pat) == Some(i)
    requires '$' !in mid && |mid| > 0 && mid[0] == ' '
    ensures ReplaceFirst(s, pat, x + mid + y)
         == s[..i] + Substitute(x, pat, s[..i], s[i + |pat|..]) + mid
                   + Substitute(y, pat, s[..i], s[i + |pat|..]) + s[i + |pat|..]
  {
    ReplaceFirstUnfold(s, pat, x + mid + y, i);
    SubstituteLiteralMiddle(x, mid, y, pat, s[..i], s[i + |pat|..]);
  }

  /** With no occurrence of the pattern the string is returned unchanged. */
  lemma ReplaceFirstAbsent(s: string, pat: string, rep: string)
    requires forall j: nat :: !OccursAt(s, pat, j)
    ensures ReplaceFirst(s, pat, rep) == s
  {
  }

  /** A `$`-free replacement takes the place of the first occurrence and nothing else changes. */
  lemma ReplaceFirstAt(s: string, pat: string, rep: string, i: nat)
    requires '$' !in rep
    requires OccursAt(s, pat, i) && forall j: nat :: j < i ==> !OccursAt(s, pat, j)
    ensures ReplaceFirst(s, pat, rep) == s[..i] + rep + s[i + |pat|..]
  {
    assert IndexOf(s, pat) == Some(i) by {
      IndexOfFinds(s, pat, i);
    }
    SubstituteLiteral(rep, pat, s[..i], s[i + |pat|..]);
  }

  /** Rewriting a leading occurrence: the case of a path that starts with the old folder path. */
  lemma ReplaceFirstPrefix(pat: string, rest: string, rep: string)
    requires '$' !in rep
    ensures ReplaceFirst(pat + rest, pat, rep) == rep + rest
  {
    var s := pat + rest;
    assert s[0..|pat|] == pat;
    ReplaceFirstAt(s, pat, rep, 0);
    assert s[|pat|..] == rest;
  }

  /**
   * When the pattern occurs only as the tail of the string, only that tail is
   * replaced: renaming a file whose name appears nowhere else in its path.
   */
  lemma ReplaceFirstTail(pre: string, pat: string, rep: string)
    requires '$' !in rep
    requires forall j: nat :: j < |pre| ==> !OccursAt(pre + pat, pat, j)
    ensures ReplaceFirst(pre + pat, pat, rep) == pre + rep
  {
    var s := pre + pat;
    assert s[|pre|..|pre| + |pat|] == pat;
    ReplaceFirstAt(s, pat, rep, |pre|);
    assert s[..|pre|] == pre;
    assert s[|pre| + |pat|..] == [];
  }

  /** An empty pattern matches at position 0, so the replacement is prepended. */
  lemma ReplaceFirstEmptyPattern(s: string, rep: string)
    requires '$' !in rep
    ensures ReplaceFirst(s, "", rep) == rep + s
  {
    assert s[0..0] == "";
    ReplaceFirstAt(s, "", rep, 0);
  }

  /**
   * Only the FIRST occurrence is rewritten, even when it is not the one meant:
   * renaming file `a` inside folder `a` from `a` to `b` yields `b/a`.
   */
  lemma ReplaceFirstHitsFolderSegment()
    ensures ReplaceFirst("a/a", "a", "b") == "b/a"
  {
    ReplaceFirstPrefix("a", "/a", "b");
    assert "a" + "/a" == "a/a";
  }

  /** In the replacement, `$&` brings back the matched text: path `x`, name `x`, new name `$&1` gives `x1`. */
  lemma ReplaceFirstDollarPattern()
    ensures ReplaceFirst("x", "x", "$&1") == "x1"
  {
    assert "x"[0..1] == "x";
    assert IndexOf("x", "x") == Some(0) by {
      IndexOfFinds("x", "x", 0);
    }
    assert "$&1"[2..] == "1";
    assert Substitute("1", "x", "", "") == "1";
  }

  /** A decimal digit. */
  predicate IsDigit(c: char) {
    '0' <= c <= '9'
  }

  /** The decimal rendering of `n` in a template literal such as `${copyIndex}`. */
  function Decimal(n: nat): (r: string)
    ensures |r| >= 1 && (n >= 10 ==> |r| >= 2)
    ensures r[|r| - 1] as int == '0' as int + n % 10
  {
    if n < 10 then [('0' as int + n) as char]
    else Decimal(n / 10) + [('0' as int + n % 10) as char]
  }

  /** A rendered number is made of digits only. */
  lemma {:induction false} DecimalDigits(n: nat)
    ensures forall i :: 0 <= i < |Decimal(n)| ==> IsDigit(Decimal(n)[i])
  {
    if n >= 10 {
      DecimalDigits(n / 10);
      var d := Decimal(n);
      assert forall i :: 0 <= i < |d| - 1 ==> d[i] == Decimal(n / 10)[i];
    }
  }

  /** Distinct numbers render as distinct strings. */
  lemma {:induction false} DecimalInjective(m: nat, n: nat)
    requires Decimal(m) == Decimal(n)
    ensures m == n
  {
    if m >= 10 && n >= 10 {
      var dm, dn := Decimal(m), Decimal(n);
      assert dm[..|dm| - 1] == Decimal(m / 10);
      assert dn[..|dn| - 1] == Decimal(n / 10);
      DecimalInjective(m / 10, n / 10);
    }
  }

  /** The value of a run of decimal digits. */
  function DigitsValue(s: string): nat
    requires forall i :: 0 <= i < |s| ==> IsDigit(s[i])
  {
    if |s| == 0 then 0
    else assert IsDigit(s[|s| - 1]); DigitsValue(s[..|s| - 1]) * 10 + (s[|s| - 1] as int - '0' as int)
  }

  /** Reading back a rendered number gives the number. */
  lemma {:induction false} DigitsValueOfDecimal(n: nat)
    ensures forall i :: 0 <= i < |Decimal(n)| ==> IsDigit(Decimal(n)[i])
    ensures DigitsValue(Decimal(n)) == n
  {
    DecimalDigits(n);
    if n >= 10 {
      var d := Decimal(n);
      assert d[..|d| - 1] == Decimal(n / 10);
      DigitsValueOfDecimal(n / 10);
    }
  }

  /**
   * `Number(s)` on the strings a user id can arrive as: the empty string is
   * 0, a run of digits with an optional leading `-` is its value, and any
   * other string is NaN (`None`), which equals no id.
   */
  function NumberOf(s: string): (r: Option<int>)
    ensures s == "" ==> r == Some(0)
    ensures r.Some? && s != "" ==> (forall i :: 0 <= i < |s| ==> IsDigit(s[i])) || (s[0] == '-' && |s| > 1)
  {
    if s == "" then Some(0)
    else if forall i :: 0 <= i < |s| ==> IsDigit(s[i]) then Some(DigitsValue(s))
    else if s[0] == '-' && |s| > 1 && forall i :: 1 <= i < |s| ==> IsDigit(s[i]) then
      var v: int := DigitsValue(s[1..]); Some(-v)
    else None
  }

  /** `Number(`${n}`)` is `n`. */
  lemma NumberOfDecimal(n: nat)
    ensures NumberOf(Decimal(n)) == Some(n)
  {
    DigitsValueOfDecimal(n);
  }

  /** A string holding a non-digit other than a leading `-` is NaN. */
  lemma NumberOfNonNumeric(s: string, i: nat)
    requires 0 < i < |s| && !IsDigit(s[i])
    ensures NumberOf(s) == None
  {
  }

  /** ASCII lower-casing of one character. */
  function LowerChar(c: char): (r: char)
    ensures 'A' <= c <= 'Z' ==> r as int == c as int + 32
    ensures !('A' <= c <= 'Z') ==> r == c
  {
    if 'A' <= c <= 'Z' then (c as int + 32) as char else c
  }

  /** ASCII lower-casing of a string. */
  function Lower(s: string): (r: string)
    ensures |r| == |s| && forall i :: 0 <= i < |s| ==> r[i] == LowerChar(s[i])
  {
    if |s| == 0 then "" else [LowerChar(s[0])] + Lower(s[1..])
  }

  /** PostgreSQL `name ILIKE '%' || query || '%'` for a query free of wildcards and escapes. */
  predicate ILikeContains(name: string, query: string) {
    IndexOf(Lower(name), Lower(query)).Some?
  }

  /** A query holds no LIKE metacharacter, so it matches as a plain substring. */
  predicate PlainQuery(query: string) {
    '%' !in query && '_' !in query && '\\' !in query
  }

  /** Occurrence is transitive: a part of a part of `s` is a part of `s`. */
  lemma OccursTransitive(s: string, t: string, u: string, i: nat, j: nat)
    requires OccursAt(s, t, i) && OccursAt(t, u, j)
    ensures OccursAt(s, u, i + j)
  {
    forall k | 0 <= k < |u|
      ensures s[i + j + k] == u[k]
    {
      assert t[j + k] == u[k];
      assert s[i..i + |t|][j + k] == s[i + j + k];
    }
  }

  /** The empty query matches every name, so it lists everything of the owner. */
  lemma ILikeEmptyQuery(name: string)
    ensures ILikeContains(name, "")
  {
    assert Lower("") == "";
    assert Lower(name)[0..0] == "";
    IndexOfFinds(Lower(name), "", 0);
  }

  /**
   * A longer query matches fewer names: whatever matches `query` also matches
   * every query contained in it, ignoring case.
   */
  lemma ILikeNarrows(name: string, query: string, part: string)
    requires ILikeContains(name, query) && ILikeContains(query, part)
    ensures ILikeContains(name, part)
  {
    var i := IndexOf(Lower(name), Lower(query)).value;
    var j := IndexOf(Lower(query), Lower(part)).value;
    OccursTransitive(Lower(name), Lower(query), Lower(part), i, j);
    IndexOfFinds(Lower(name), Lower(part), i + j);
  }

  /** Lower-casing twice is lower-casing once. */
  lemma LowerIdempotent(s: string)
    ensures Lower(Lower(s)) == Lower(s)
  {
  }

  /** The match ignores the case of the query. */
  lemma ILikeIgnoresCase(name: string, query: string)
    ensures ILikeContains(name, query) == ILikeContains(name, Lower(query))
  {
    LowerIdempotent(query);
  }
}
