/**
 * The PHP string built-ins the locales tools rely on: `substr(..., -17) == ...`
 * (EndsWith), `strpos(...) === 0` (StartsWith), `str_replace` for one needle
 * (ReplaceAll), `trim` (Trim) and the `preg_split` call, pattern \s*,\s*, that
 * splits an exclusion list (SplitList).
 */
module Strings {

  /** The marker every managed properties file name ends with. */
  const Suffix: string := ".UTF-8.properties"

  predicate EndsWith(s: string, suffix: string) {
    |suffix| <= |s| && s[|s| - |suffix|..] == suffix
  }

  predicate StartsWith(s: string, prefix: string) {
    |prefix| <= |s| && s[..|prefix|] == prefix
  }

  /** Helper: concatenation is associative. */
  lemma AppendAssoc<T>(a: seq<T>, b: seq<T>, c: seq<T>)
    ensures a + (b + c) == a + b + c
  {
  }

  /** Helper: a prefix one element longer. */
  lemma TakeNext<T>(s: seq<T>, i: nat)
    requires i < |s|
    ensures s[..i + 1] == s[..i] + [s[i]]
  {
  }

  /** Helper: the prefix as long as the sequence. */
  lemma TakeWhole<T>(s: seq<T>)
    ensures s[..|s|] == s
  {
  }

  lemma EndsWithAppended(s: string, suffix: string)
    ensures EndsWith(s + suffix, suffix)
  {
    assert (s + suffix)[|s + suffix| - |suffix|..] == suffix;
  }

  // ---------------------------------------------------------------------------
  // str_replace

  /**
   * Replaces, from left to right, every non-overlapping occurrence of `needle`
   * in `s` by `rep`, as PHP's str_replace does for one search string.
   * A string without the needle's first character is returned unchanged.
   */
  function ReplaceAll(s: string, needle: string, rep: string): (r: string)
    requires needle != []
    ensures needle[0] !in s ==> r == s
    decreases |s|
  {
    if |s| < |needle| then s
    else if s[..|needle|] == needle then rep + ReplaceAll(s[|needle|..], needle, rep)
    else [s[0]] + ReplaceAll(s[1..], needle, rep)
  }

  /** A prefix free of the needle's first character passes through untouched. */
  lemma {:induction false} ReplaceAllSkipsPrefix(a: string, b: string, needle: string, rep: string)
    requires needle != [] && needle[0] !in a
    ensures ReplaceAll(a + b, needle, rep) == a + ReplaceAll(b, needle, rep)
  {
    if a != [] {
      var s := a + b;
      if |s| < |needle| {
        assert ReplaceAll(b, needle, rep) == b;
      } else {
        assert ReplaceAll(s, needle, rep) == [a[0]] + ReplaceAll(a[1..] + b, needle, rep) by {
          assert s[..|needle|][0] == a[0] && a[0] in a;
          ReplaceAllNoMatchHere(s, needle, rep);
          assert s[1..] == a[1..] + b;
        }
        ReplaceAllSkipsPrefix(a[1..], b, needle, rep);
        assert a == [a[0]] + a[1..];
        AppendAssoc([a[0]], a[1..], ReplaceAll(b, needle, rep));
      }
    } else {
      assert a + b == b;
    }
  }

  /** An occurrence at the front is replaced and scanning resumes after it. */
  lemma ReplaceAllAtNeedle(b: string, needle: string, rep: string)
    requires needle != []
    ensures ReplaceAll(needle + b, needle, rep) == rep + ReplaceAll(b, needle, rep)
  {
    assert (needle + b)[..|needle|] == needle;
    assert (needle + b)[|needle|..] == b;
  }

  /** A single occurrence, between needle-free parts, is the only replacement. */
  lemma {:induction false} ReplaceAllSingle(a: string, b: string, needle: string, rep: string)
    requires needle != [] && needle[0] !in a && needle[0] !in b
    ensures ReplaceAll(a + (needle + b), needle, rep) == a + (rep + b)
  {
    ReplaceAllSkipsPrefix(a, needle + b, needle, rep);
    ReplaceAllAtNeedle(b, needle, rep);
  }

  /** Where no occurrence starts, one character is kept and scanning moves on. */
  lemma ReplaceAllNoMatchHere(s: string, needle: string, rep: string)
    requires needle != [] && s != []
    requires |s| < |needle| || s[..|needle|] != needle
    ensures ReplaceAll(s, needle, rep) == [s[0]] + ReplaceAll(s[1..], needle, rep)
  {
  }

  /** A trailing needle after a needle-free string is the only replacement. */
  lemma {:induction false} ReplaceAllTrailingNeedle(b: string, needle: string, rep: string)
    requires needle != [] && needle[0] !in b
    ensures ReplaceAll(b + needle, needle, rep) == b + rep
  {
    ReplaceAllSkipsPrefix(b, needle, needle, rep);
    ReplaceAllAtNeedle([], needle, rep);
    assert needle + [] == needle;
  }

  /** A lone first character of the needle, in front of a string without it, is kept. */
  lemma {:induction false} ReplaceAllLoneMarkOnly(q: string, needle: string, rep: string)
    requires |needle| >= 2 && needle[0] !in q
    requires q != [] && q[0] != needle[1]
    ensures ReplaceAll([needle[0]] + q, needle, rep) == [needle[0]] + q
  {
    var s := [needle[0]] + q;
    if |s| >= |needle| { assert s[..|needle|][1] == q[0]; }
    ReplaceAllNoMatchHere(s, needle, rep);
    assert s[0] == needle[0] && s[1..] == q;
  }

  /**
   * Replacing `n1` where a second needle `n2`, sharing only the first
   * character, follows: only `n1` is replaced.
   */
  lemma {:induction false} ReplaceAllBeforeOtherNeedle(p: string, q: string, r: string, n1: string, n2: string, v1: string)
    requires |n1| >= 2 && |n2| >= 2 && n1[0] == n2[0] && n1[1] != n2[1]
    requires n1[0] !in p && n1[0] !in q && n1[0] !in r && n1[0] !in n2[1..]
    ensures ReplaceAll(p + (n1 + (q + (n2 + r))), n1, v1) == p + (v1 + (q + (n2 + r)))
  {
    var rest := q + (n2 + r);
    var tail := n2[1..] + r;
    assert ReplaceAll(n2 + r, n1, v1) == n2 + r by {
      assert n2 == [n2[0]] + n2[1..];
      AppendAssoc([n2[0]], n2[1..], r);
      assert n1[0] !in tail && tail[0] == n2[1];
      ReplaceAllLoneMarkOnly(tail, n1, v1);
    }
    assert ReplaceAll(rest, n1, v1) == rest by {
      ReplaceAllSkipsPrefix(q, n2 + r, n1, v1);
    }
    assert ReplaceAll(n1 + rest, n1, v1) == v1 + rest by {
      ReplaceAllAtNeedle(rest, n1, v1);
    }
    ReplaceAllSkipsPrefix(p, n1 + rest, n1, v1);
  }

  /** `ReplaceAllSingle` with the needle-free front in three parts. */
  lemma {:induction false} ReplaceAllSingleAfter(p: string, v: string, q: string, r: string, needle: string, rep: string)
    requires needle != [] && needle[0] !in p && needle[0] !in v && needle[0] !in q && needle[0] !in r
    ensures ReplaceAll(p + (v + (q + (needle + r))), needle, rep) == p + (v + (q + (rep + r)))
  {
    var front := p + v + q;
    assert p + (v + (q + (needle + r))) == front + (needle + r);
    ReplaceAllSingle(front, r, needle, rep);
    assert front + (rep + r) == p + (v + (q + (rep + r)));
  }

  /** Two needles filled in turn in a pattern holding one of each, in that order. */
  lemma {:induction false} ReplaceBothInTurn(p: string, q: string, r: string, n1: string, n2: string, v1: string, v2: string)
    requires |n1| >= 2 && |n2| >= 2 && n1[0] == n2[0] && n1[1] != n2[1]
    requires n1[0] !in p && n1[0] !in q && n1[0] !in r && n1[0] !in n2[1..] && n1[0] !in v1
    ensures ReplaceAll(ReplaceAll(p + (n1 + (q + (n2 + r))), n1, v1), n2, v2) == p + (v1 + (q + (v2 + r)))
  {
    ReplaceAllBeforeOtherNeedle(p, q, r, n1, n2, v1);
    ReplaceAllSingleAfter(p, v1, q, r, n2, v2);
  }

  /** The needle's first character alone, not followed by its second, survives. */
  lemma {:induction false} ReplaceAllLoneMark(b: string, needle: string, rep: string)
    requires |needle| >= 2 && needle[0] !in b
    requires b != [] && b[0] != needle[1]
    ensures ReplaceAll([needle[0]] + b + needle, needle, rep) == [needle[0]] + b + rep
  {
    var tail := [needle[0]] + b + needle;
    assert tail[0] == needle[0] && tail[1..] == b + needle by {
      AppendAssoc([needle[0]], b, needle);
    }
    assert tail[..|needle|] != needle by {
      assert tail[..|needle|][1] == b[0];
    }
    ReplaceAllNoMatchHere(tail, needle, rep);
    ReplaceAllTrailingNeedle(b, needle, rep);
    AppendAssoc([needle[0]], b, rep);
  }

  /**
   * In `a.b<needle>`, where the needle starts with the dot, the dot survives and
   * only the trailing needle is replaced.
   */
  lemma {:induction false} ReplaceAllKeepsLoneMark(a: string, b: string, needle: string, rep: string)
    requires |needle| >= 2 && needle[0] !in a && needle[0] !in b
    requires b != [] && b[0] != needle[1]
    ensures ReplaceAll(a + ([needle[0]] + b + needle), needle, rep) == a + ([needle[0]] + b + rep)
  {
    ReplaceAllLoneMark(b, needle, rep);
    ReplaceAllSkipsPrefix(a, [needle[0]] + b + needle, needle, rep);
  }

  /**
   * Every occurrence is replaced: in pieces joined by the needle, none of
   * which holds the needle's first character, each needle becomes `rep`.
   */
  lemma {:induction false} ReplaceAllJoin(parts: seq<string>, needle: string, rep: string)
    requires needle != [] && |parts| >= 1
    requires forall k :: 0 <= k < |parts| ==> needle[0] !in parts[k]
    ensures ReplaceAll(Join(parts, needle), needle, rep) == Join(parts, rep)
    decreases |parts|
  {
    if |parts| > 1 {
      var tail := Join(parts[1..], needle);
      assert forall k :: 0 <= k < |parts| - 1 ==> parts[1..][k] == parts[k + 1];
      AppendAssoc(parts[0], needle, tail);
      ReplaceAllSkipsPrefix(parts[0], needle + tail, needle, rep);
      ReplaceAllAtNeedle(tail, needle, rep);
      ReplaceAllJoin(parts[1..], needle, rep);
      AppendAssoc(parts[0], rep, Join(parts[1..], rep));
    }
  }

  // ---------------------------------------------------------------------------
  // trim

  /** The characters PHP's trim strips by default: " \t\n\r\0\x0B". */
  predicate IsTrimmed(c: char) {
    c == ' ' || c == '\t' || c == '\n' || c == '\r' || c == '\0' || c == '\U{000B}'
  }

  /** A string made only of characters that trim strips. */
  predicate Blank(s: string) {
    forall i :: 0 <= i < |s| ==> IsTrimmed(s[i])
  }

  function TrimStart(s: string): (r: string)
    ensures |r| <= |s| && r == s[|s| - |r|..]
    ensures r == [] || !IsTrimmed(r[0])
    ensures Blank(s[..|s| - |r|])
  {
    if s != [] && IsTrimmed(s[0]) then
      var t := s[1..];
      var r := TrimStart(t);
      assert t[|t| - |r|..] == s[|s| - |r|..];
      assert Blank(s[..|s| - |r|]) by {
        forall i | 0 <= i < |s| - |r| ensures IsTrimmed(s[i]) {
          if i > 0 { assert s[i] == t[..|t| - |r|][i - 1]; }
        }
      }
      r
    else s
  }

  function TrimEnd(s: string): (r: string)
    ensures |r| <= |s| && r == s[..|r|]
    ensures r == [] || !IsTrimmed(r[|r| - 1])
    ensures Blank(s[|r|..])
  {
    if s != [] && IsTrimmed(s[|s| - 1]) then
      var t := s[..|s| - 1];
      var r := TrimEnd(t);
      assert t[..|r|] == s[..|r|];
      assert Blank(s[|r|..]) by {
        forall i | 0 <= i < |s| - |r| ensures IsTrimmed(s[|r|..][i]) {
          if i < |t| - |r| { assert s[|r|..][i] == t[|r|..][i]; }
        }
      }
      r
    else s
  }

  /** PHP's trim: strips the IsTrimmed characters from both ends. */
  function Trim(s: string): string {
    TrimStart(TrimEnd(s))
  }

  /** trim yields the empty string exactly when every character is strippable. */
  lemma TrimEmptyIffBlank(s: string)
    ensures Trim(s) == [] <==> Blank(s)
  {
    var e := TrimEnd(s);
    if Trim(s) == [] {
      // TrimEnd leaves a non-strippable last character, so nothing is left at all
      assert Blank(e[..|e|]) && e[..|e|] == e;
      assert e == [];
      assert s[|e|..] == s;
    } else {
      var r := Trim(s);
      assert !IsTrimmed(r[0]);
      assert r[0] == e[|e| - |r|] && e[|e| - |r|] == s[|e| - |r|];
    }
  }

  // ---------------------------------------------------------------------------
  // Splitting an exclusion list

  /** Cuts `s` at every `sep`; the pieces never contain `sep`. */
  function Split(s: string, sep: char): (r: seq<string>)
    ensures |r| >= 1
    ensures forall i :: 0 <= i < |r| ==> sep !in r[i]
  {
    if s == [] then [""]
    else
      var rest := Split(s[1..], sep);
      if s[0] == sep then [""] + rest
      else [[s[0]] + rest[0]] + rest[1..]
  }

  /** Glues pieces back together with `sep` between them. */
  function Join(parts: seq<string>, sep: string): string
    requires |parts| >= 1
  {
    if |parts| == 1 then parts[0] else parts[0] + sep + Join(parts[1..], sep)
  }

  /** Joining the pieces of a split gives the original string back. */
  lemma {:induction false} JoinSplit(s: string, sep: char)
    ensures Join(Split(s, sep), [sep]) == s
  {
    if s != [] {
      var rest := Split(s[1..], sep);
      var r := Split(s, sep);
      JoinSplit(s[1..], sep);
      assert s == [s[0]] + s[1..];
      if s[0] == sep {
        assert r == [""] + rest;
        assert r[0] == "" && r[1..] == rest;
        assert Join(r, [sep]) == "" + [sep] + Join(rest, [sep]);
        assert "" + [sep] == [sep];
      } else {
        assert r == [[s[0]] + rest[0]] + rest[1..];
        assert r[0] == [s[0]] + rest[0] && r[1..] == rest[1..];
        if |rest| > 1 {
          var a, b, c, d := [s[0]], rest[0], [sep], Join(rest[1..], [sep]);
          assert Join(r, [sep]) == a + b + c + d;
          assert Join(rest, [sep]) == b + c + d;
          AppendAssoc(a, b, c);
          AppendAssoc(a, b + c, d);
        }
      }
    }
  }

  /** The characters that PCRE's \s matches. */
  predicate IsRegexSpace(c: char) {
    c == ' ' || c == '\t' || c == '\n' || c == '\U{000B}' || c == '\U{000C}' || c == '\r'
  }

  /** Every character is one that \s matches. */
  predicate AllSpace(s: string) {
    forall i :: 0 <= i < |s| ==> IsRegexSpace(s[i])
  }

  /** The leading `\s*`: the dropped prefix is whitespace and what is left starts with none. */
  function DropLeadingSpace(s: string): (r: string)
    ensures |r| <= |s| && r == s[|s| - |r|..]
    ensures r == [] || !IsRegexSpace(r[0])
    ensures AllSpace(s[..|s| - |r|])
  {
    if s != [] && IsRegexSpace(s[0]) then
      var t := s[1..];
      var r := DropLeadingSpace(t);
      assert t[|t| - |r|..] == s[|s| - |r|..];
      assert AllSpace(s[..|s| - |r|]) by {
        forall i | 0 <= i < |s| - |r| ensures IsRegexSpace(s[i]) {
          if i > 0 { assert s[i] == t[..|t| - |r|][i - 1]; }
        }
      }
      r
    else s
  }

  /** The trailing `\s*`: the dropped suffix is whitespace and what is left ends with none. */
  function DropTrailingSpace(s: string): (r: string)
    ensures |r| <= |s| && r == s[..|r|]
    ensures r == [] || !IsRegexSpace(r[|r| - 1])
    ensures AllSpace(s[|r|..])
  {
    if s != [] && IsRegexSpace(s[|s| - 1]) then
      var t := s[..|s| - 1];
      var r := DropTrailingSpace(t);
      assert t[..|r|] == s[..|r|];
      assert AllSpace(s[|r|..]) by {
        forall i | 0 <= i < |s| - |r| ensures IsRegexSpace(s[|r|..][i]) {
          if i < |t| - |r| { assert s[|r|..][i] == t[|r|..][i]; }
        }
      }
      r
    else s
  }

  /**
   * `part` is `lead + field + trail` with `|lead| == a`: `lead` and `trail`
   * are whitespace, each is empty on a side without a comma, and on a side
   * with a comma `field` does not start (end) with whitespace.
   */
  predicate StrippedAt(part: string, a: nat, field: string, afterComma: bool, beforeComma: bool) {
    && a + |field| <= |part|
    && part[a..a + |field|] == field
    && AllSpace(part[..a]) && AllSpace(part[a + |field|..])
    && (!afterComma ==> a == 0)
    && (!beforeComma ==> a + |field| == |part|)
    && (afterComma && field != [] ==> !IsRegexSpace(field[0]))
    && (beforeComma && field != [] ==> !IsRegexSpace(field[|field| - 1]))
  }

  /** `field` is what the pattern \s*,\s* leaves of the piece `part` between commas. */
  predicate Stripped(part: string, field: string, afterComma: bool, beforeComma: bool) {
    exists a: nat | a <= |part| :: StrippedAt(part, a, field, afterComma, beforeComma)
  }

  /** Helper: a whitespace prefix in front of a non-space start is what the leading \s* drops. */
  lemma {:induction false} DropLeadingSpaceOf(lead: string, rest: string)
    requires AllSpace(lead) && (rest == [] || !IsRegexSpace(rest[0]))
    ensures DropLeadingSpace(lead + rest) == rest
    decreases |lead|
  {
    if lead == [] {
      assert lead + rest == rest;
    } else {
      assert (lead + rest)[0] == lead[0];
      assert (lead + rest)[1..] == lead[1..] + rest;
      assert AllSpace(lead[1..]) by {
        forall i | 0 <= i < |lead| - 1 ensures IsRegexSpace(lead[1..][i]) {
          assert lead[1..][i] == lead[i + 1];
        }
      }
      DropLeadingSpaceOf(lead[1..], rest);
    }
  }

  /** Helper: a whitespace suffix after a non-space end is what the trailing \s* drops. */
  lemma {:induction false} DropTrailingSpaceOf(rest: string, trail: string)
    requires AllSpace(trail) && (rest == [] || !IsRegexSpace(rest[|rest| - 1]))
    ensures DropTrailingSpace(rest + trail) == rest
    decreases |trail|
  {
    if trail == [] {
      assert rest + trail == rest;
    } else {
      var s, t := rest + trail, trail[..|trail| - 1];
      assert s[|s| - 1] == trail[|trail| - 1];
      assert s[..|s| - 1] == rest + t;
      assert AllSpace(t) by {
        forall i | 0 <= i < |t| ensures IsRegexSpace(t[i]) {
          assert t[i] == trail[i];
        }
      }
      DropTrailingSpaceOf(rest, t);
    }
  }

  /** Helper: a leading and then a trailing drop leave a stripped field. */
  lemma StrippedByDrops(part: string, start: string, r: string, afterComma: bool, beforeComma: bool)
    requires |start| <= |part| && start == part[|part| - |start|..] && AllSpace(part[..|part| - |start|])
    requires |r| <= |start| && r == start[..|r|] && AllSpace(start[|r|..])
    requires !afterComma ==> start == part
    requires !beforeComma ==> r == start
    requires afterComma ==> start == [] || !IsRegexSpace(start[0])
    requires beforeComma ==> r == [] || !IsRegexSpace(r[|r| - 1])
    ensures StrippedAt(part, |part| - |start|, r, afterComma, beforeComma)
  {
    var a := |part| - |start|;
    assert part[a..a + |r|] == r;
    assert part[a + |r|..] == start[|r|..];
    if afterComma && r != [] {
      assert r[0] == start[0];
    }
  }

  /**
   * One field of the list: whitespace is dropped on a side where a comma
   * was; what is left is a part of the field.
   */
  function ListField(part: string, afterComma: bool, beforeComma: bool): (r: string)
    ensures Stripped(part, r, afterComma, beforeComma)
  {
    var start := if afterComma then DropLeadingSpace(part) else part;
    var r := if beforeComma then DropTrailingSpace(start) else start;
    StrippedByDrops(part, start, r, afterComma, beforeComma);
    r
  }

  /** Helper: a stripped field is a slice of its piece, trimmed on its comma sides. */
  lemma StrippedFacts(part: string, field: string, afterComma: bool, beforeComma: bool)
    requires Stripped(part, field, afterComma, beforeComma)
    ensures forall c :: c in field ==> c in part
    ensures afterComma ==> field == [] || !IsRegexSpace(field[0])
    ensures beforeComma ==> field == [] || !IsRegexSpace(field[|field| - 1])
  {
    var a: nat :| a <= |part| && StrippedAt(part, a, field, afterComma, beforeComma);
    forall c | c in field ensures c in part {
      var j :| 0 <= j < |field| && field[j] == c;
      assert part[a + j] == c;
    }
  }

  /** The field is the one stripped form of its piece. */
  lemma ListFieldUnique(part: string, field: string, afterComma: bool, beforeComma: bool)
    requires Stripped(part, field, afterComma, beforeComma)
    ensures ListField(part, afterComma, beforeComma) == field
  {
    var a: nat :| a <= |part| && StrippedAt(part, a, field, afterComma, beforeComma);
    var lead, trail := part[..a], part[a + |field|..];
    assert part == lead + field + trail;
    if afterComma && field == [] {
      assert AllSpace(part) by {
        forall j | 0 <= j < |part| ensures IsRegexSpace(part[j]) {
          if j < a { assert part[j] == lead[j]; } else { assert part[j] == trail[j - a]; }
        }
      }
      DropLeadingSpaceOf(part, []);
      assert part + [] == part;
    } else {
      var start := if afterComma then DropLeadingSpace(part) else part;
      assert start == field + trail by {
        if afterComma {
          AppendAssoc(lead, field, trail);
          assert (field + trail)[0] == field[0];
          DropLeadingSpaceOf(lead, field + trail);
        } else {
          assert lead == [];
        }
      }
      if beforeComma {
        DropTrailingSpaceOf(field, trail);
      } else {
        assert trail == [] && field + trail == field;
      }
    }
  }

  /**
   * `preg_split` with the pattern \s*,\s*: the pieces between commas, with the
   * whitespace next to each comma removed (whitespace at the very start or end
   * of `s` is kept, as the pattern only matches around a comma).
   */
  function SplitList(s: string): (r: seq<string>)
    ensures |r| == |Split(s, ',')|
    ensures forall i :: 0 <= i < |r| ==> ',' !in r[i]
    ensures forall i :: 0 < i < |r| ==> r[i] == [] || !IsRegexSpace(r[i][0])
    ensures forall i :: 0 <= i < |r| - 1 ==> r[i] == [] || !IsRegexSpace(r[i][|r[i]| - 1])
    ensures forall i :: 0 <= i < |r| ==> Stripped(Split(s, ',')[i], r[i], i > 0, i < |r| - 1)
  {
    var parts := Split(s, ',');
    var r := seq(|parts|, i requires 0 <= i < |parts| => ListField(parts[i], i > 0, i < |parts| - 1));
    StrippedPieces(parts, r);
    r
  }

  /** Helper: stripping comma pieces keeps them comma-free and trimmed on their comma sides. */
  lemma StrippedPieces(parts: seq<string>, r: seq<string>)
    requires |r| == |parts|
    requires forall i :: 0 <= i < |parts| ==> ',' !in parts[i]
    requires forall i :: 0 <= i < |r| ==> Stripped(parts[i], r[i], i > 0, i < |r| - 1)
    ensures forall i :: 0 <= i < |r| ==> ',' !in r[i]
    ensures forall i :: 0 < i < |r| ==> r[i] == [] || !IsRegexSpace(r[i][0])
    ensures forall i :: 0 <= i < |r| - 1 ==> r[i] == [] || !IsRegexSpace(r[i][|r[i]| - 1])
  {
    forall i | 0 <= i < |r|
      ensures ',' !in r[i]
      ensures i > 0 ==> r[i] == [] || !IsRegexSpace(r[i][0])
      ensures i < |r| - 1 ==> r[i] == [] || !IsRegexSpace(r[i][|r[i]| - 1])
    {
      StrippedFacts(parts[i], r[i], i > 0, i < |r| - 1);
    }
  }

  /** The `i`-th list entry is exactly the `i`-th comma piece, stripped. */
  lemma SplitListField(s: string, i: nat, field: string)
    requires i < |Split(s, ',')| && Stripped(Split(s, ',')[i], field, i > 0, i < |Split(s, ',')| - 1)
    ensures SplitList(s)[i] == field
  {
    ListFieldUnique(Split(s, ',')[i], field, i > 0, i < |Split(s, ',')| - 1);
  }
}
