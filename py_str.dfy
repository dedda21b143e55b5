/** The few operations on Python `str` that the writer relies on, with Python's semantics:
    `sub in s`, `s.startswith(p)`, `s.lower()`, `s.split(c)`, `c.join(parts)`,
    `glue.join(parts)`, `s.replace(pat, rep)` and `s.strip()`, for one-character split
    separators and non-empty replacement patterns. */
module PyStr {

  /** `s.startswith(prefix)` */
  predicate StartsWith(s: string, prefix: string)
  {
    |prefix| <= |s| && s[..|prefix|] == prefix
  }

  /** `sub in s`, trying every start position from the left. */
  predicate Contains(s: string, sub: string)
    decreases |s|
  {
    StartsWith(s, sub) || (|s| > 0 && Contains(s[1..], sub))
  }

  /** `sub in s` holds exactly when `sub` occurs at some position of `s`. */
  lemma {:induction false} ContainsIffOccurs(s: string, sub: string)
    ensures Contains(s, sub) <==> exists i :: 0 <= i <= |s| && StartsWith(s[i..], sub)
  {
    if |s| == 0 {
      assert s[0..] == s;
    } else {
      ContainsIffOccurs(s[1..], sub);
      if Contains(s, sub) {
        if StartsWith(s, sub) {
          assert s[0..] == s;
        } else {
          var j :| 0 <= j <= |s[1..]| && StartsWith(s[1..][j..], sub);
          assert s[1..][j..] == s[j + 1..];
        }
      }
      if exists i :: 0 <= i <= |s| && StartsWith(s[i..], sub) {
        var i :| 0 <= i <= |s| && StartsWith(s[i..], sub);
        if i == 0 {
          assert s[0..] == s;
        } else {
          assert s[1..][i - 1..] == s[i..];
        }
      }
    }
  }

  /** Lower-casing of one character; only ASCII letters are mapped. */
  function LowerChar(c: char): char
  {
    if 'A' <= c <= 'Z' then (c as int + 32) as char else c
  }

  /** `s.lower()` */
  function Lower(s: string): (r: string)
    ensures |r| == |s|
    ensures forall i :: 0 <= i < |s| ==> r[i] == LowerChar(s[i])
  {
    if s == [] then [] else [LowerChar(s[0])] + Lower(s[1..])
  }

  /** `c.isspace()`: the characters Python's `str.strip()` removes. */
  predicate IsSpace(c: char)
  {
    c == ' ' || '\t' <= c <= '\r' || '\U{1c}' <= c <= '\U{1f}' || c == '\U{85}' || c == '\U{a0}'
    || c == '\U{1680}' || '\U{2000}' <= c <= '\U{200a}' || c == '\U{2028}' || c == '\U{2029}'
    || c == '\U{202f}' || c == '\U{205f}' || c == '\U{3000}'
  }

  /** Number of whitespace characters at the start of `s`. */
  function LeadingSpaces(s: string): (n: nat)
    ensures n <= |s|
    ensures forall i :: 0 <= i < n ==> IsSpace(s[i])
    ensures n < |s| ==> !IsSpace(s[n])
  {
    if |s| > 0 && IsSpace(s[0]) then 1 + LeadingSpaces(s[1..]) else 0
  }

  /** Number of whitespace characters at the end of `s`. */
  function TrailingSpaces(s: string): (n: nat)
    ensures n <= |s|
    ensures forall i :: |s| - n <= i < |s| ==> IsSpace(s[i])
    ensures n < |s| ==> !IsSpace(s[|s| - 1 - n])
  {
    if |s| > 0 && IsSpace(s[|s| - 1]) then 1 + TrailingSpaces(s[..|s| - 1]) else 0
  }

  /** `s.strip()` */
  function Strip(s: string): (r: string)
    ensures r == [] || (!IsSpace(r[0]) && !IsSpace(r[|r| - 1]))
    ensures r == [] <==> forall i :: 0 <= i < |s| ==> IsSpace(s[i])
  {
    var t := s[LeadingSpaces(s)..];
    var r := t[..|t| - TrailingSpaces(t)];
    assert r != [] ==> !IsSpace(s[LeadingSpaces(s)]);
    r
  }

  predicate AllSpace(s: string)
  {
    forall i :: 0 <= i < |s| ==> IsSpace(s[i])
  }

  /** Stripping removes exactly the surrounding whitespace: it recovers any text whose ends are
      not whitespace from behind any whitespace padding. */
  lemma StripPadded(pre: string, core: string, post: string)
    requires AllSpace(pre) && AllSpace(post)
    requires core == [] || (!IsSpace(core[0]) && !IsSpace(core[|core| - 1]))
    ensures Strip(pre + core + post) == core
  {
    var s := pre + core + post;
    if core == [] {
      assert s == pre + post;
      assert forall i :: 0 <= i < |s| ==> IsSpace(s[i]) by {
        forall i | 0 <= i < |s| ensures IsSpace(s[i]) {
          if i < |pre| { assert s[i] == pre[i]; } else { assert s[i] == post[i - |pre|]; }
        }
      }
    } else {
      var a := LeadingSpaces(s);
      assert s[|pre|] == core[0];
      assert a == |pre|;
      var t := s[a..];
      assert t == core + post;
      var b := TrailingSpaces(t);
      assert t[|core| - 1] == core[|core| - 1];
      assert b == |post|;
      assert t[..|t| - b] == core;
    }
  }

  /** `s.split(sep)` for a one-character separator: cuts at every separator, so the result
      is never empty and no piece holds the separator. */
  function Split(s: string, sep: char): (parts: seq<string>)
    ensures |parts| >= 1
    ensures forall i :: 0 <= i < |parts| ==> sep !in parts[i]
  {
    if s == [] then [""]
    else
      var rest := Split(s[1..], sep);
      if s[0] == sep then [""] + rest
      else [[s[0]] + rest[0]] + rest[1..]
  }

  /** `glue.join(parts)` for a glue text of any length. */
  function JoinWith(parts: seq<string>, glue: string): string
  {
    if parts == [] then ""
    else if |parts| == 1 then parts[0]
    else parts[0] + glue + JoinWith(parts[1..], glue)
  }

  /** `sep.join(parts)` for a one-character separator. */
  function Join(parts: seq<string>, sep: char): string
  {
    JoinWith(parts, [sep])
  }

  /** Joining the pieces of a split gives back the original text. */
  lemma {:induction false} JoinSplit(s: string, sep: char)
    ensures Join(Split(s, sep), sep) == s
  {
    if s != [] {
      JoinSplit(s[1..], sep);
      var rest := Split(s[1..], sep);
      if s[0] == sep {
        assert ([""] + rest)[1..] == rest;
      } else {
        var parts := [[s[0]] + rest[0]] + rest[1..];
        assert parts[1..] == rest[1..];
        if |rest| > 1 {
          assert Join(rest, sep) == rest[0] + [sep] + Join(rest[1..], sep);
        }
        assert s == [s[0]] + s[1..];
      }
    }
  }

  /** Splitting text that begins with a separator-free piece `p` keeps `p` at the head of the
      first piece. */
  lemma {:induction false} SplitAfterPrefix(p: string, t: string, sep: char)
    requires sep !in p
    ensures Split(p + t, sep) == [p + Split(t, sep)[0]] + Split(t, sep)[1..]
  {
    if p != [] {
      SplitAfterPrefix(p[1..], t, sep);
      assert (p + t)[1..] == p[1..] + t;
      assert (p + t)[0] == p[0];
      assert [p[0]] + (p[1..] + Split(t, sep)[0]) == p + Split(t, sep)[0];
    } else {
      var parts := Split(t, sep);
      assert p + t == t && p + parts[0] == parts[0];
      assert [parts[0]] + parts[1..] == parts;
    }
  }

  /** Splitting a join of separator-free pieces gives back the pieces. */
  lemma {:induction false} SplitJoin(parts: seq<string>, sep: char)
    requires |parts| >= 1
    requires forall i :: 0 <= i < |parts| ==> sep !in parts[i]
    ensures Split(Join(parts, sep), sep) == parts
  {
    if |parts| == 1 {
      SplitAfterPrefix(parts[0], "", sep);
      assert parts[0] + "" == parts[0];
    } else {
      var p, rest := parts[0], parts[1..];
      SplitJoin(rest, sep);
      var j := Join(rest, sep);
      assert Join(parts, sep) == p + ([sep] + j);
      SplitAfterPrefix(p, [sep] + j, sep);
      assert ([sep] + j)[1..] == j;
      assert Split([sep] + j, sep) == [""] + rest;
      assert p + "" == p;
    }
  }

  /** `s.replace(pat, rep)`: scans left to right and replaces non-overlapping occurrences. */
  function Replace(s: string, pat: string, rep: string): string
    requires pat != []
    decreases |s|
  {
    if StartsWith(s, pat) then rep + Replace(s[|pat|..], pat, rep)
    else if s == [] then []
    else [s[0]] + Replace(s[1..], pat, rep)
  }

  /** Replacing a pattern that does not occur leaves the text unchanged. */
  lemma {:induction false} ReplaceAbsent(s: string, pat: string, rep: string)
    requires pat != []
    requires !Contains(s, pat)
    ensures Replace(s, pat, rep) == s
  {
    if s != [] {
      ReplaceAbsent(s[1..], pat, rep);
      assert s == [s[0]] + s[1..];
    }
  }


  /** The first character of `pat` occurs nowhere else in it, so two occurrences of `pat`
      can never overlap. */
  predicate UniqueHead(pat: string)
  {
    pat != [] && forall d :: 0 < d < |pat| ==> pat[d] != pat[0]
  }

  /** The pattern cannot start inside a non-empty run free of it: it would either lie in the
      run or overlap the occurrence that follows. */
  lemma NoMatchInFreeRun(p: string, pat: string, x: string)
    requires UniqueHead(pat) && p != [] && !Contains(p, pat)
    ensures !StartsWith(p + (pat + x), pat)
  {
    var s := p + (pat + x);
    if |p| >= |pat| {
      assert s[..|pat|] == p[..|pat|];
    } else if |pat| <= |s| {
      assert s[..|pat|][|p|] == pat[0];
    }
  }

  /** Where the pattern does not start, the scan copies one character and moves on. */
  lemma ReplaceCopiesFirst(s: string, pat: string, rep: string)
    requires pat != [] && s != [] && !StartsWith(s, pat)
    ensures Replace(s, pat, rep) == [s[0]] + Replace(s[1..], pat, rep)
  {
  }

  /** The scan copies a run free of the pattern and then replaces the occurrence after it. */
  lemma {:induction false} ReplaceAfterFreeRun(p: string, pat: string, rep: string, x: string)
    requires UniqueHead(pat) && !Contains(p, pat)
    ensures Replace(p + (pat + x), pat, rep) == p + (rep + Replace(x, pat, rep))
  {
    var s := p + (pat + x);
    if p == [] {
      assert s == pat + x;
      assert s[..|pat|] == pat;
      assert s[|pat|..] == x;
    } else {
      var tail := rep + Replace(x, pat, rep);
      NoMatchInFreeRun(p, pat, x);
      ReplaceCopiesFirst(s, pat, rep);
      assert !Contains(p[1..], pat);
      ReplaceAfterFreeRun(p[1..], pat, rep, x);
      assert s[1..] == p[1..] + (pat + x);
      assert [p[0]] + (p[1..] + tail) == p + tail;
    }
  }

  /** A join of two or more parts is the first part, the glue, and the join of the rest. */
  lemma JoinWithCons(parts: seq<string>, glue: string)
    requires |parts| > 1
    ensures JoinWith(parts, glue) == parts[0] + (glue + JoinWith(parts[1..], glue))
  {
  }

  /** `pat.join(parts).replace(pat, rep) == rep.join(parts)` when no part holds the pattern:
      every occurrence is replaced, and nothing else changes. */
  lemma {:induction false} ReplaceJoinWith(parts: seq<string>, pat: string, rep: string)
    requires UniqueHead(pat) && |parts| >= 1
    requires forall i :: 0 <= i < |parts| ==> !Contains(parts[i], pat)
    ensures Replace(JoinWith(parts, pat), pat, rep) == JoinWith(parts, rep)
  {
    if |parts| == 1 {
      ReplaceAbsent(parts[0], pat, rep);
    } else {
      var rest := parts[1..];
      ReplaceJoinWith(rest, pat, rep);
      JoinWithCons(parts, pat);
      JoinWithCons(parts, rep);
      ReplaceAfterFreeRun(parts[0], pat, rep, JoinWith(rest, pat));
    }
  }

  /** Text put before a join joins the first part. */
  lemma JoinWithPadFront(parts: seq<string>, glue: string, pad: string)
    requires |parts| >= 1
    ensures pad + JoinWith(parts, glue) == JoinWith(parts[0 := pad + parts[0]], glue)
  {
    if |parts| > 1 {
      assert parts[0 := pad + parts[0]][1..] == parts[1..];
    }
  }

  /** Text put after a join joins the last part. */
  lemma {:induction false} JoinWithPadBack(parts: seq<string>, glue: string, pad: string)
    requires |parts| >= 1
    ensures JoinWith(parts, glue) + pad ==
      JoinWith(parts[|parts| - 1 := parts[|parts| - 1] + pad], glue)
  {
    if |parts| > 1 {
      var last := |parts| - 1;
      var padded := parts[last := parts[last] + pad];
      JoinWithPadBack(parts[1..], glue, pad);
      assert padded[1..] == parts[1..][last - 1 := parts[last] + pad];
      assert padded[0] == parts[0];
      assert parts[0] + glue + JoinWith(parts[1..], glue) + pad ==
        parts[0] + glue + (JoinWith(parts[1..], glue) + pad);
    }
  }
}
