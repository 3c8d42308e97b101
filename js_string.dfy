/**
 The JavaScript string built-ins the chat client relies on: `trim`, `split`,
 `join`, `startsWith` and `indexOf`. A JavaScript string is a sequence of
 UTF-16 code units; here it is a `seq<char>` of Unicode scalar values. The
 client only cuts strings right after the ASCII prefix `data: ` and around the
 ASCII tags `[INSERT]` and `[/INSERT]`, so those cuts fall in the same places
 under either encoding.
 */
module JsString {
  import opened Wrappers

  /** The code points `String.prototype.trim` strips: ECMAScript WhiteSpace
      (tab, vertical tab, form feed, space, no-break space, byte order mark and
      the other Zs space separators) and LineTerminator. */
  predicate IsWhitespace(c: char) {
    || c == '\t' || c == '\U{000B}' || c == '\U{000C}' || c == ' '
    || c == '\U{00A0}' || c == '\U{FEFF}' || c == '\U{1680}'
    || ('\U{2000}' <= c <= '\U{200A}')
    || c == '\U{202F}' || c == '\U{205F}' || c == '\U{3000}'
    || c == '\n' || c == '\r' || c == '\U{2028}' || c == '\U{2029}'
  }

  predicate AllWhitespace(s: string) {
    forall i :: 0 <= i < |s| ==> IsWhitespace(s[i])
  }

  /** `trimStart`: `s` without its leading whitespace (`TrimStartSpec`). */
  function TrimStart(s: string): (r: string)
    ensures |r| <= |s|
  {
    if s != [] && IsWhitespace(s[0]) then TrimStart(s[1..]) else s
  }

  /** `trimEnd`: `s` without its trailing whitespace (`TrimEndSpec`). */
  function TrimEnd(s: string): (r: string)
    ensures |r| <= |s|
  {
    if s != [] && IsWhitespace(s[|s| - 1]) then TrimEnd(s[..|s| - 1]) else s
  }

  /** `trimStart` removes a whitespace prefix and stops at the first other code unit. */
  lemma {:induction false} TrimStartSpec(s: string)
    ensures var r := TrimStart(s);
      && r == s[|s| - |r|..]
      && AllWhitespace(s[..|s| - |r|])
      && (r != [] ==> !IsWhitespace(r[0]))
  {
    if s != [] && IsWhitespace(s[0]) {
      TrimStartSpec(s[1..]);
      var r := TrimStart(s);
      assert s[..|s| - |r|] == [s[0]] + s[1..][..|s| - 1 - |r|];
    }
  }

  /** `trimEnd` removes a whitespace suffix and stops at the last other code unit. */
  lemma {:induction false} TrimEndSpec(s: string)
    ensures var r := TrimEnd(s);
      && r == s[..|r|]
      && AllWhitespace(s[|r|..])
      && (r != [] ==> !IsWhitespace(r[|r| - 1]))
  {
    if s != [] && IsWhitespace(s[|s| - 1]) {
      var t := s[..|s| - 1];
      TrimEndSpec(t);
      var r := TrimEnd(s);
      assert s[|r|..] == t[|r|..] + [s[|s| - 1]];
    }
  }

  /** Number of leading whitespace code units of `s`. */
  function LeadingWhitespace(s: string): nat {
    |s| - |TrimStart(s)|
  }

  /** `String.prototype.trim`: `s` with its leading and trailing whitespace removed. */
  function Trim(s: string): string {
    TrimEnd(TrimStart(s))
  }

  /** The trimmed string is the factor of `s` that starts after the leading
      whitespace; everything around it in `s` is whitespace, and it neither
      starts nor ends with whitespace. */
  lemma TrimSpec(s: string)
    ensures var r, k := Trim(s), LeadingWhitespace(s);
      && k + |r| <= |s|
      && r == s[k..k + |r|]
      && AllWhitespace(s[..k])
      && AllWhitespace(s[k + |r|..])
      && (r != [] ==> !IsWhitespace(r[0]) && !IsWhitespace(r[|r| - 1]))
  {
    var t := TrimStart(s);
    var r := TrimEnd(t);
    var k := LeadingWhitespace(s);
    TrimStartSpec(s);
    TrimEndSpec(t);
    assert t == s[k..];
    assert r == s[k..k + |r|];
    assert s[k + |r|..] == t[|r|..];
    if r != [] {
      assert r[0] == t[0];
    }
  }

  /** A trimmed string is empty exactly when every code unit was whitespace. */
  lemma TrimEmptyIffBlank(s: string)
    ensures Trim(s) == [] <==> AllWhitespace(s)
  {
    TrimSpec(s);
    var k := LeadingWhitespace(s);
    if Trim(s) == [] {
      assert s[..k] + s[k..] == s;
    } else {
      var r := Trim(s);
      assert r[0] == s[k];
    }
  }

  /** Trimming twice is trimming once. */
  lemma TrimIdempotent(s: string)
    ensures Trim(Trim(s)) == Trim(s)
  {
    var r := Trim(s);
    TrimSpec(s);
    if r != [] {
      assert TrimStart(r) == r;
      assert TrimEnd(r) == r;
    }
  }

  /** `s.startsWith(p)`. */
  predicate StartsWith(s: string, p: string) {
    |p| <= |s| && s[..|p|] == p
  }

  /** `s.endsWith(p)`. */
  predicate EndsWith(s: string, p: string) {
    |p| <= |s| && s[|s| - |p|..] == p
  }

  /** `pat` occurs in `s` starting at index `i`. */
  predicate OccursAt(s: string, pat: string, i: nat) {
    i + |pat| <= |s| && s[i..i + |pat|] == pat
  }

  /** `s.indexOf(pat, from)`: the index `IndexOfSpec` describes, or `None`
      (JavaScript's -1). */
  function IndexOf(s: string, pat: string, from: nat): (r: Option<nat>)
    ensures r.Some? ==> from <= r.value && r.value + |pat| <= |s|
    decreases |s| - from
  {
    if from + |pat| > |s| then None
    else if OccursAt(s, pat, from) then Some(from)
    else IndexOf(s, pat, from + 1)
  }

  /** `indexOf` returns the first index at or after `from` where `pat` occurs,
      and `None` only when there is no such index. */
  lemma {:induction false} IndexOfSpec(s: string, pat: string, from: nat)
    ensures var r := IndexOf(s, pat, from);
      && (r.Some? ==> from <= r.value && OccursAt(s, pat, r.value))
      && forall j: nat :: from <= j && (r.None? || j < r.value) ==> !OccursAt(s, pat, j)
    decreases |s| - from
  {
    if from + |pat| <= |s| && !OccursAt(s, pat, from) {
      IndexOfSpec(s, pat, from + 1);
    }
  }

  /** `indexOf` finds an occurrence exactly when it is the first one at or after `from`. */
  lemma IndexOfFinds(s: string, pat: string, from: nat, i: nat)
    requires from <= i && OccursAt(s, pat, i)
    requires forall k: nat :: from <= k < i ==> !OccursAt(s, pat, k)
    ensures IndexOf(s, pat, from) == Some(i)
  {
    IndexOfSpec(s, pat, from);
    var r := IndexOf(s, pat, from);
    if r.Some? {
      assert !(r.value < i);
      assert !(i < r.value);
    }
  }

  /** An occurrence that lies inside `a` is an occurrence in `a + b`. */
  lemma OccursInPrefix(a: string, b: string, pat: string, k: nat)
    requires k + |pat| <= |a|
    ensures OccursAt(a + b, pat, k) <==> OccursAt(a, pat, k)
  {
    assert (a + b)[k..k + |pat|] == a[k..k + |pat|];
  }

  /** An occurrence in `b` is an occurrence in `a + b`, shifted by `|a|`. */
  lemma OccursAfterPrefix(a: string, b: string, pat: string, k: nat)
    ensures OccursAt(a + b, pat, |a| + k) <==> OccursAt(b, pat, k)
  {
    if |a| + k + |pat| <= |a + b| {
      assert (a + b)[|a| + k..|a| + k + |pat|] == b[k..k + |pat|];
    }
  }

  /** Occurrences after `a` in `(a + b) + c` are those in `b + c`, shifted by `|a|`. */
  lemma OccursAfterPrefixAssoc(a: string, b: string, c: string, pat: string, k: nat)
    ensures OccursAt(a + b + c, pat, |a| + k) <==> OccursAt(b + c, pat, k)
  {
    assert a + b + c == a + (b + c);
    OccursAfterPrefix(a, b + c, pat, k);
  }

  /** `pat` does not occur in `s` at any index in `[from, to)`. */
  predicate NoOccurrenceIn(s: string, pat: string, from: nat, to: nat) {
    forall k: nat :: from <= k < to ==> !OccursAt(s, pat, k)
  }

  /** In `head + pat + rest`, searching from `from` finds the shown `pat` when
      `head + pat` has no occurrence from `from` on before it. */
  lemma IndexOfShown(head: string, pat: string, rest: string, from: nat)
    requires from <= |head|
    requires NoOccurrenceIn(head + pat, pat, from, |head|)
    ensures IndexOf(head + pat + rest, pat, from) == Some(|head|)
  {
    var hp := head + pat;
    var s := hp + rest;
    forall k: nat | from <= k < |head|
      ensures !OccursAt(s, pat, k)
    {
      OccursInPrefix(hp, rest, pat, k);
    }
    OccursInPrefix(hp, rest, pat, |head|);
    assert hp[|head|..|head| + |pat|] == pat;
    IndexOfFinds(s, pat, from, |head|);
  }

  /** `parts.join(sep)`. */
  function Join(parts: seq<string>, sep: string): string {
    if |parts| == 0 then ""
    else if |parts| == 1 then parts[0]
    else parts[0] + sep + Join(parts[1..], sep)
  }

  /** `s.split(sep)` for a one-character separator: the pieces between the
      separators, always at least one (`SplitJoinInverse` shows what they are). */
  function Split(s: string, sep: char): (r: seq<string>)
    ensures |r| >= 1
  {
    if s == [] then [""]
    else
      var rest := Split(s[1..], sep);
      if s[0] == sep then [""] + rest else [[s[0]] + rest[0]] + rest[1..]
  }

  /** The pieces of a split never contain the separator, and joining them back
      with it gives the original string. */
  lemma {:induction false} SplitJoinInverse(s: string, sep: char)
    ensures forall k :: 0 <= k < |Split(s, sep)| ==> sep !in Split(s, sep)[k]
    ensures Join(Split(s, sep), [sep]) == s
  {
    if s != [] {
      var rest := Split(s[1..], sep);
      SplitJoinInverse(s[1..], sep);
      var r := Split(s, sep);
      if s[0] == sep {
        assert r == [""] + rest;
        assert r[1..] == rest;
        assert Join(r, [sep]) == [sep] + Join(rest, [sep]);
      } else {
        assert r == [[s[0]] + rest[0]] + rest[1..];
        assert r[1..] == rest[1..];
        assert sep !in r[0];
        assert Join(r, [sep]) == [s[0]] + Join(rest, [sep]);
      }
    }
  }

  /** Joining a non-empty prefix and a non-empty suffix of a list puts one separator between them. */
  lemma {:induction false} JoinAppend(a: seq<string>, b: seq<string>, sep: string)
    requires |a| >= 1 && |b| >= 1
    ensures Join(a + b, sep) == Join(a, sep) + sep + Join(b, sep)
  {
    if |a| == 1 {
      assert (a + b)[1..] == b;
    } else {
      assert (a + b)[1..] == a[1..] + b;
      JoinAppend(a[1..], b, sep);
    }
  }

  /** Splitting a join whose pieces hold no separator gives the pieces back. */
  lemma {:induction false} SplitJoin(parts: seq<string>, sep: char)
    requires |parts| >= 1
    requires forall k :: 0 <= k < |parts| ==> sep !in parts[k]
    ensures Split(Join(parts, [sep]), sep) == parts
  {
    if |parts| == 1 {
      SplitNoSeparator(parts[0], sep);
    } else {
      SplitJoin(parts[1..], sep);
      SplitAfterPiece(parts[0], Join(parts[1..], [sep]), sep);
      assert parts == [parts[0]] + parts[1..];
    }
  }

  /** A string without the separator splits into itself alone. */
  lemma {:induction false} SplitNoSeparator(s: string, sep: char)
    requires sep !in s
    ensures Split(s, sep) == [s]
  {
    if s != [] {
      SplitNoSeparator(s[1..], sep);
      assert [s[0]] + s[1..] == s;
    }
  }

  /** A separator-free piece followed by a separator adds exactly that piece in front. */
  lemma {:induction false} SplitAfterPiece(piece: string, rest: string, sep: char)
    requires sep !in piece
    ensures Split(piece + [sep] + rest, sep) == [piece] + Split(rest, sep)
  {
    if piece == [] {
      assert piece + [sep] + rest == [sep] + rest;
      assert ([sep] + rest)[1..] == rest;
    } else {
      var s := piece + [sep] + rest;
      assert s[1..] == piece[1..] + [sep] + rest;
      SplitAfterPiece(piece[1..], rest, sep);
      assert [piece[0]] + piece[1..] == piece;
    }
  }

  /** The concatenation of a list of strings (`parts.join("")`). */
  function Concat(parts: seq<string>): string {
    if parts == [] then "" else parts[0] + Concat(parts[1..])
  }

  /** Concatenation distributes over list append. */
  lemma {:induction false} ConcatAppend(a: seq<string>, b: seq<string>)
    ensures Concat(a + b) == Concat(a) + Concat(b)
  {
    if a == [] {
      assert a + b == b;
    } else {
      assert (a + b)[1..] == a[1..] + b;
      ConcatAppend(a[1..], b);
    }
  }
}
