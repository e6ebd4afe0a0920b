/** String and sequence helpers shared by the site's modules: the JavaScript notion of white space
    used by String.prototype.trim and by the regular-expression class \s, ASCII case
    folding, prefix/substring tests, the subsequence test of the product search, filtering, and
    String.prototype.split / Array.prototype.join on a one-character separator. */
module Text {
  import opened Wrappers

  /** The characters JavaScript's trim() removes: WhiteSpace and LineTerminator of
      ECMA-262 (tab, vertical tab, form feed, space, no-break space, BOM, the Zs
      category, LF, CR, LS, PS). The regular-expression class \s is the same set. */
  predicate IsSpace(c: char)
  {
    c == '\t' || c == '\n' || c == '\U{000B}' || c == '\U{000C}' || c == '\r' || c == ' ' ||
    c == '\U{00A0}' || c == '\U{1680}' || ('\U{2000}' <= c <= '\U{200A}') ||
    c == '\U{2028}' || c == '\U{2029}' || c == '\U{202F}' || c == '\U{205F}' || c == '\U{3000}' ||
    c == '\U{FEFF}'
  }

  predicate AllSpace(s: string)
  {
    forall i :: 0 <= i < |s| ==> IsSpace(s[i])
  }

  /** Drops leading white space. */
  function TrimStart(s: string): (r: string)
    ensures |r| <= |s|
  {
    if |s| > 0 && IsSpace(s[0]) then TrimStart(s[1..]) else s
  }

  /** TrimStart drops a white-space prefix and stops at the first other character. */
  lemma {:induction false} TrimStartFacts(s: string)
    ensures var r := TrimStart(s);
      r == s[|s| - |r|..] && AllSpace(s[..|s| - |r|]) && (r == [] || !IsSpace(r[0]))
    decreases |s|
  {
    if |s| > 0 && IsSpace(s[0]) {
      TrimStartFacts(s[1..]);
      var r := TrimStart(s);
      assert s[..|s| - |r|] == [s[0]] + s[1..][..|s| - 1 - |r|];
    }
  }

  /** Drops trailing white space. */
  function TrimEnd(s: string): (r: string)
    ensures |r| <= |s|
  {
    if |s| > 0 && IsSpace(s[|s| - 1]) then TrimEnd(s[..|s| - 1]) else s
  }

  /** TrimEnd drops a white-space suffix and stops at the last other character. */
  lemma {:induction false} TrimEndFacts(s: string)
    ensures var r := TrimEnd(s);
      r == s[..|r|] && AllSpace(s[|r|..]) && (r == [] || !IsSpace(r[|r| - 1]))
    decreases |s|
  {
    if |s| > 0 && IsSpace(s[|s| - 1]) {
      TrimEndFacts(s[..|s| - 1]);
      var r := TrimEnd(s);
      assert s[|r|..] == s[..|s| - 1][|r|..] + [s[|s| - 1]];
    }
  }

  /** String.prototype.trim. */
  function Trim(s: string): string
  {
    TrimEnd(TrimStart(s))
  }

  /** A string trims to "" exactly when every character is white space. */
  lemma TrimEmptyIff(s: string)
    ensures Trim(s) == [] <==> AllSpace(s)
  {
    var t := TrimStart(s);
    TrimStartFacts(s);
    TrimEndFacts(t);
    if Trim(s) == [] {
      assert AllSpace(t[0..]);
      assert t == [];
      assert s[..|s| - |t|] == s;
    }
    if AllSpace(s) {
      TrimStartAllSpace(s);
    }
  }

  lemma {:induction false} TrimStartAllSpace(s: string)
    requires AllSpace(s)
    ensures TrimStart(s) == []
    decreases |s|
  {
    if |s| > 0 {
      assert IsSpace(s[0]);
      assert AllSpace(s[1..]) by { forall i | 0 <= i < |s| - 1 ensures IsSpace(s[1..][i]) { assert s[1..][i] == s[i + 1]; } }
      TrimStartAllSpace(s[1..]);
    }
  }

  function LowerChar(c: char): (r: char)
    ensures 'A' <= c <= 'Z' ==> r as int == c as int + 32
    ensures !('A' <= c <= 'Z') ==> r == c
  {
    if 'A' <= c <= 'Z' then (c as int + 32) as char else c
  }

  /** toLowerCase / str.lower restricted to ASCII letters. */
  function Lower(s: string): (r: string)
    ensures |r| == |s|
    ensures forall i :: 0 <= i < |s| ==> r[i] == LowerChar(s[i])
  {
    if s == [] then [] else [LowerChar(s[0])] + Lower(s[1..])
  }

  /** A character JavaScript stores as one UTF-16 code unit; one beyond U+FFFF takes a
      surrogate pair. */
  predicate IsBmp(c: char)
  {
    c as int < 0x10000
  }

  predicate AllBmp(s: string)
  {
    forall i :: 0 <= i < |s| ==> IsBmp(s[i])
  }

  /** A JavaScript string's `length`: its UTF-16 code units. It equals the number of
      characters exactly when none lies beyond U+FFFF, and is at most twice it. */
  function Utf16Length(s: string): (n: nat)
    ensures |s| <= n <= 2 * |s|
    ensures n == |s| <==> AllBmp(s)
    decreases |s|
  {
    if s == [] then 0
    else
      var n := (if IsBmp(s[0]) then 1 else 2) + Utf16Length(s[1..]);
      assert AllBmp(s) <==> IsBmp(s[0]) && AllBmp(s[1..]) by {
        assert forall i :: 0 < i < |s| ==> s[i] == s[1..][i - 1];
      }
      n
  }

  /** The length of the longest prefix whose characters all pass `p`. */
  function Span(s: string, p: char -> bool): (n: nat)
    ensures n <= |s| && forall i :: 0 <= i < n ==> p(s[i])
    ensures n < |s| ==> !p(s[n])
  {
    if s != [] && p(s[0]) then 1 + Span(s[1..], p) else 0
  }

  predicate StartsWith(s: string, prefix: string)
  {
    |prefix| <= |s| && s[..|prefix|] == prefix
  }

  predicate EndsWith(s: string, suffix: string)
  {
    |suffix| <= |s| && s[|s| - |suffix|..] == suffix
  }

  /** String.prototype.includes / Python's `in` on strings. */
  predicate Contains(s: string, sub: string)
    decreases |s|
  {
    StartsWith(s, sub) || (|s| > 0 && Contains(s[1..], sub))
  }

  /** String.prototype.indexOf: the first position where sub occurs, None for -1. */
  function IndexOf(s: string, sub: string): (r: Option<nat>)
    ensures r.Some? <==> Contains(s, sub)
    ensures r.Some? ==> r.value + |sub| <= |s| && StartsWith(s[r.value..], sub)
    ensures r.Some? ==> forall k :: 0 <= k < r.value ==> !StartsWith(s[k..], sub)
    decreases |s|
  {
    if StartsWith(s, sub) then Some(0)
    else if |s| == 0 then None
    else
      match IndexOf(s[1..], sub)
      case None => None
      case Some(j) =>
        assert forall k :: 0 < k <= j + 1 ==> s[k..] == s[1..][k - 1..];
        Some(j + 1)
  }

  /** A string lacking the first character of sub does not contain sub. */
  lemma {:induction false} MissingHeadNotContained(s: string, sub: string)
    requires sub != [] && sub[0] !in s
    ensures !Contains(s, sub)
    decreases |s|
  {
    if |s| > 0 {
      assert s[0] != sub[0];
      assert sub[0] !in s[1..] by { assert forall c :: c in s[1..] ==> c in s; }
      MissingHeadNotContained(s[1..], sub);
    }
  }

  /** The substring at position i witnesses Contains. */
  lemma {:induction false} ContainsAt(s: string, sub: string, i: nat)
    requires i + |sub| <= |s| && s[i..i + |sub|] == sub
    ensures Contains(s, sub)
    decreases i
  {
    if i > 0 {
      assert s[1..][i - 1..i - 1 + |sub|] == sub;
      ContainsAt(s[1..], sub, i - 1);
    }
  }

  lemma {:induction false} ContainsWitness(s: string, sub: string) returns (i: nat)
    requires Contains(s, sub)
    ensures i + |sub| <= |s| && s[i..i + |sub|] == sub
    decreases |s|
  {
    if StartsWith(s, sub) {
      i := 0;
    } else {
      var j := ContainsWitness(s[1..], sub);
      i := j + 1;
      assert s[i..i + |sub|] == s[1..][j..j + |sub|];
    }
  }

  /** The characters of q occur in t in order (not necessarily adjacent), matched
      greedily from the left. */
  predicate IsSubsequence<T(==)>(q: seq<T>, t: seq<T>)
    decreases |t|
  {
    q == [] || (t != [] && if q[0] == t[0] then IsSubsequence(q[1..], t[1..]) else IsSubsequence(q, t[1..]))
  }

  lemma {:induction false} PrefixIsSubsequence(q: string, t: string)
    requires StartsWith(t, q)
    ensures IsSubsequence(q, t)
    decreases |t|
  {
    if q != [] {
      assert q[0] == t[0];
      assert StartsWith(t[1..], q[1..]) by { assert t[1..][..|q| - 1] == t[..|q|][1..]; }
      PrefixIsSubsequence(q[1..], t[1..]);
    }
  }

  lemma {:induction false} SubsequenceReflexive<T>(s: seq<T>)
    ensures IsSubsequence(s, s)
    decreases |s|
  {
    if s != [] {
      SubsequenceReflexive(s[1..]);
    }
  }

  /** A contiguous substring is in particular a subsequence. */
  lemma {:induction false} SubstringIsSubsequence(q: string, t: string)
    requires Contains(t, q)
    ensures IsSubsequence(q, t)
    decreases |t|
  {
    if StartsWith(t, q) {
      PrefixIsSubsequence(q, t);
    } else {
      SubstringIsSubsequence(q, t[1..]);
      SubsequenceOfTail(q, t);
    }
  }

  /** A subsequence of t's tail is a subsequence of t. */
  lemma {:induction false} SubsequenceOfTail<T>(q: seq<T>, t: seq<T>)
    requires t != [] && IsSubsequence(q, t[1..])
    ensures IsSubsequence(q, t)
    decreases |t|, 0
  {
    if q != [] && q[0] == t[0] {
      // q[1..] is a subsequence of what follows q[0]'s match in t[1..], hence of t[1..]
      SubsequenceDropHead(q, t[1..]);
    }
  }

  /** Dropping the first character of q keeps it a subsequence. */
  lemma {:induction false} SubsequenceDropHead<T>(q: seq<T>, t: seq<T>)
    requires q != [] && IsSubsequence(q, t)
    ensures IsSubsequence(q[1..], t)
    decreases |t|, 1
  {
    assert t != [];
    if q[0] == t[0] {
      if q[1..] != [] {
        SubsequenceOfTail(q[1..], t);
      }
    } else {
      SubsequenceDropHead(q, t[1..]);
      if q[1..] != [] {
        SubsequenceOfTail(q[1..], t);
      }
    }
  }

  /** The elements of s satisfying p, in order (Array.prototype.filter, a list
      comprehension with a condition, a `.eq` database query). */
  function Filter<T>(s: seq<T>, p: T -> bool): (r: seq<T>)
    ensures |r| <= |s|
  {
    if s == [] then [] else (if p(s[0]) then [s[0]] else []) + Filter(s[1..], p)
  }

  /** What a filter keeps: only elements of s that satisfy p, every such element, and
      nothing when no element does. */
  lemma {:induction false} FilterContents<T>(s: seq<T>, p: T -> bool)
    ensures forall i :: 0 <= i < |Filter(s, p)| ==> Filter(s, p)[i] in s && p(Filter(s, p)[i])
    ensures forall i :: 0 <= i < |s| && p(s[i]) ==> s[i] in Filter(s, p)
    ensures (forall i :: 0 <= i < |s| ==> !p(s[i])) ==> Filter(s, p) == []
    decreases |s|
  {
    if s != [] {
      FilterContents(s[1..], p);
      var r := Filter(s, p);
      var head := if p(s[0]) then [s[0]] else [];
      assert r == head + Filter(s[1..], p);
      forall i | 0 <= i < |r| ensures r[i] in s && p(r[i]) {
        if i >= |head| {
          assert r[i] == Filter(s[1..], p)[i - |head|];
        }
      }
      forall i | 0 <= i < |s| && p(s[i]) ensures s[i] in r {
        if i > 0 {
          assert s[i] == s[1..][i - 1];
        }
      }
      if forall i :: 0 <= i < |s| ==> !p(s[i]) {
        assert forall i :: 0 <= i < |s| - 1 ==> s[1..][i] == s[i + 1];
      }
    }
  }

  /** Filtering a sequence extended by one element. */
  lemma {:induction false} FilterSnoc<T>(s: seq<T>, x: T, p: T -> bool)
    ensures Filter(s + [x], p) == Filter(s, p) + (if p(x) then [x] else [])
    decreases |s|
  {
    if s == [] {
      assert [x][1..] == [];
    } else {
      assert (s + [x])[1..] == s[1..] + [x];
      FilterSnoc(s[1..], x, p);
    }
  }

  /** A filter keeps its survivors in their original order. */
  lemma {:induction false} FilterIsSubsequence<T>(s: seq<T>, p: T -> bool)
    ensures IsSubsequence(Filter(s, p), s)
    decreases |s|
  {
    if s != [] {
      FilterIsSubsequence(s[1..], p);
      if p(s[0]) {
        assert ([s[0]] + Filter(s[1..], p))[1..] == Filter(s[1..], p);
      } else {
        assert Filter(s, p) == Filter(s[1..], p);
        SubsequenceOfTail(Filter(s, p), s);
      }
    }
  }

  /** Array.prototype.join with a one-character separator. */
  function Join(parts: seq<string>, sep: char): string
  {
    if |parts| == 0 then "" else if |parts| == 1 then parts[0] else parts[0] + [sep] + Join(parts[1..], sep)
  }

  /** String.prototype.split on a one-character separator: the pieces between the
      separators, at least one, none containing the separator. */
  function Split(s: string, sep: char): (r: seq<string>)
    ensures |r| >= 1
    ensures forall k :: 0 <= k < |r| ==> sep !in r[k]
    ensures Join(r, sep) == s
    decreases |s|
  {
    if |s| == 0 then [""]
    else if s[0] == sep then [""] + Split(s[1..], sep)
    else
      var rest := Split(s[1..], sep);
      [[s[0]] + rest[0]] + rest[1..]
  }

  /** Splitting undoes joining when no part contains the separator. */
  lemma {:induction false} SplitJoin(parts: seq<string>, sep: char)
    requires |parts| >= 1
    requires forall k :: 0 <= k < |parts| ==> sep !in parts[k]
    ensures Split(Join(parts, sep), sep) == parts
    decreases |parts|, |parts[0]|
  {
    if |parts| == 1 {
      SplitNoSep(parts[0], sep);
    } else if parts[0] == "" {
      assert Join(parts, sep) == [sep] + Join(parts[1..], sep);
      SplitJoin(parts[1..], sep);
      assert ([sep] + Join(parts[1..], sep))[1..] == Join(parts[1..], sep);
    } else {
      var p0 := parts[0];
      var tailParts := [p0[1..]] + parts[1..];
      assert Join(tailParts, sep) == p0[1..] + [sep] + Join(parts[1..], sep);
      assert Join(parts, sep) == [p0[0]] + Join(tailParts, sep);
      assert p0[0] != sep by { assert p0[0] in p0; }
      forall k | 0 <= k < |tailParts| ensures sep !in tailParts[k] {
        if k == 0 { assert forall c :: c in p0[1..] ==> c in p0; } else { assert tailParts[k] == parts[k]; }
      }
      SplitJoin(tailParts, sep);
      assert ([p0[0]] + Join(tailParts, sep))[1..] == Join(tailParts, sep);
      assert [p0[0]] + p0[1..] == p0;
      assert [p0] + tailParts[1..] == parts;
    }
  }

  lemma {:induction false} SplitNoSep(s: string, sep: char)
    requires sep !in s
    ensures Split(s, sep) == [s]
    decreases |s|
  {
    if |s| > 0 {
      assert s[0] in s;
      assert forall c :: c in s[1..] ==> c in s;
      SplitNoSep(s[1..], sep);
      assert [s[0]] + s[1..] == s;
    }
  }
}
