/**
  The few Python string and path operations the scripts rely on:
  str.strip, str.split(','), str.lower, str.find / the `in` test,
  str.replace(pattern, ''), os.path.basename and os.path.join.
 */
module Text {

  /** Python's str.isspace for one character. */
  predicate IsSpace(c: char) {
    || ('\t' <= c <= '\r')
    || ('\U{1c}' <= c <= '\U{1f}')
    || c == ' ' || c == '\U{85}' || c == '\U{a0}' || c == '\U{1680}'
    || ('\U{2000}' <= c <= '\U{200a}')
    || c == '\U{2028}' || c == '\U{2029}' || c == '\U{202f}' || c == '\U{205f}' || c == '\U{3000}'
  }

  predicate AllSpace(s: string) {
    forall k :: 0 <= k < |s| ==> IsSpace(s[k])
  }

  /** s.lstrip(). */
  function TrimStart(s: string): string {
    if s != [] && IsSpace(s[0]) then TrimStart(s[1..]) else s
  }

  /** lstrip drops exactly the leading whitespace: the rest is a suffix that starts with a non-space. */
  lemma {:induction false} TrimStartSpec(s: string)
    ensures var r := TrimStart(s);
      && |r| <= |s| && r == s[|s| - |r|..]
      && AllSpace(s[..|s| - |r|])
      && (r != [] ==> !IsSpace(r[0]))
  {
    if s != [] && IsSpace(s[0]) {
      TrimStartSpec(s[1..]);
      var r := TrimStart(s);
      assert s[..|s| - |r|] == [s[0]] + s[1..][..|s| - 1 - |r|];
    }
  }

  /** s.rstrip(). */
  function TrimEnd(s: string): string {
    if s != [] && IsSpace(s[|s| - 1]) then TrimEnd(s[..|s| - 1]) else s
  }

  /** rstrip drops exactly the trailing whitespace: the rest is a prefix that ends with a non-space. */
  lemma {:induction false} TrimEndSpec(s: string)
    ensures var r := TrimEnd(s);
      && |r| <= |s| && r == s[..|r|]
      && AllSpace(s[|r|..])
      && (r != [] ==> !IsSpace(r[|r| - 1]))
  {
    if s != [] && IsSpace(s[|s| - 1]) {
      TrimEndSpec(s[..|s| - 1]);
      var r := TrimEnd(s);
      assert s[|r|..] == s[..|s| - 1][|r|..] + [s[|s| - 1]];
    }
  }

  /** s.strip(). */
  function Strip(s: string): string {
    TrimEnd(TrimStart(s))
  }

  /**
    strip yields the empty string exactly on all-whitespace input, never
    leaves whitespace at either end, and leaves alone a string without any.
   */
  lemma {:induction false} StripSpec(s: string)
    ensures Strip(s) == [] <==> AllSpace(s)
    ensures Strip(s) != [] ==> !IsSpace(Strip(s)[0]) && !IsSpace(Strip(s)[|Strip(s)| - 1])
    ensures (s == [] || (!IsSpace(s[0]) && !IsSpace(s[|s| - 1]))) ==> Strip(s) == s
  {
    var t := TrimStart(s);
    var r := TrimEnd(t);
    TrimStartSpec(s);
    TrimEndSpec(t);
    if r == [] {
      assert s == s[..|s| - |t|] + t;
      assert t == t[|r|..];
    }
    if r != [] {
      assert r[0] == t[0];
    }
  }

  /** Stripping adds no character: one absent from `s` is absent from s.strip(). */
  lemma {:induction false} StripKeepsOut(s: string, c: char)
    requires c !in s
    ensures c !in Strip(s)
  {
    var t := TrimStart(s);
    var r := Strip(s);
    TrimStartSpec(s);
    TrimEndSpec(t);
    forall k | 0 <= k < |r| ensures r[k] != c {
      assert r[k] == t[k] == s[|s| - |t| + k];
    }
  }

  /** s.split(sep) for a one-character separator: always at least one piece. */
  function Split(s: string, sep: char): (pieces: seq<string>)
    ensures |pieces| >= 1
  {
    if s == [] then [""]
    else
      var t := Split(s[1..], sep);
      if s[0] == sep then [""] + t else [[s[0]] + t[0]] + t[1..]
  }

  /** sep.join(pieces). */
  function JoinWith(pieces: seq<string>, sep: char): string
    requires |pieces| >= 1
  {
    if |pieces| == 1 then pieces[0] else pieces[0] + [sep] + JoinWith(pieces[1..], sep)
  }

  /** Splitting loses nothing: the pieces are separator-free and join back to the input. */
  lemma {:induction false} SplitJoin(s: string, sep: char)
    ensures JoinWith(Split(s, sep), sep) == s
    ensures forall p :: p in Split(s, sep) ==> sep !in p
  {
    if s != [] {
      SplitJoin(s[1..], sep);
      var t := Split(s[1..], sep);
      if s[0] == sep {
        assert Split(s, sep)[1..] == t;
      } else {
        var r := Split(s, sep);
        assert r[0] == [s[0]] + t[0] && r[1..] == t[1..];
        if |t| == 1 {
          assert JoinWith(r, sep) == [s[0]] + t[0];
        } else {
          assert JoinWith(t, sep) == t[0] + [sep] + JoinWith(t[1..], sep);
          assert JoinWith(r, sep) == [s[0]] + t[0] + [sep] + JoinWith(t[1..], sep);
        }
        forall p | p in r ensures sep !in p {
          if p == r[0] {
            assert t[0] in t;
          } else {
            assert p in t[1..];
          }
        }
      }
    }
  }

  /** Python's lowercasing of one character, restricted to ASCII letters. */
  function LowerChar(c: char): char {
    if 'A' <= c <= 'Z' then (c as int - 'A' as int + 'a' as int) as char else c
  }

  /** s.lower() (ASCII letters only). */
  function Lower(s: string): string {
    seq(|s|, i requires 0 <= i < |s| => LowerChar(s[i]))
  }

  /** `pat` occurs in `s` starting at index `i`. */
  predicate MatchAt(s: string, pat: string, i: int) {
    0 <= i && i + |pat| <= |s| && s[i..i + |pat|] == pat
  }

  /** Python's `pat in s`. */
  predicate Contains(s: string, pat: string) {
    exists i :: 0 <= i <= |s| - |pat| && MatchAt(s, pat, i)
  }

  function FindFrom(s: string, pat: string, i: nat): (r: int)
    ensures r == -1 || (i <= r && MatchAt(s, pat, r))
    ensures r == -1 ==> forall k :: i <= k ==> !MatchAt(s, pat, k)
    ensures r != -1 ==> forall k :: i <= k < r ==> !MatchAt(s, pat, k)
    decreases |s| - i
  {
    if i + |pat| > |s| then -1
    else if MatchAt(s, pat, i) then i
    else FindFrom(s, pat, i + 1)
  }

  /** s.find(pat): the lowest index where `pat` occurs, or -1. */
  function Find(s: string, pat: string): (r: int)
    ensures r == -1 <==> !Contains(s, pat)
    ensures r != -1 ==> MatchAt(s, pat, r) && forall k :: 0 <= k < r ==> !MatchAt(s, pat, k)
  {
    FindFrom(s, pat, 0)
  }

  /** A case-sensitive occurrence is also an occurrence after lowercasing both sides. */
  lemma {:induction false} ContainsLower(s: string, pat: string)
    requires Contains(s, pat)
    ensures Contains(Lower(s), Lower(pat))
  {
    var i :| 0 <= i <= |s| - |pat| && MatchAt(s, pat, i);
    assert Lower(s)[i..i + |pat|] == Lower(pat) by {
      forall k | 0 <= k < |pat| ensures Lower(s)[i..i + |pat|][k] == Lower(pat)[k] {
        assert s[i..i + |pat|][k] == pat[k];
      }
    }
    assert MatchAt(Lower(s), Lower(pat), i);
  }

  /** s.replace(pat, ''): removes the non-overlapping occurrences, scanning left to right. */
  function RemoveAll(s: string, pat: string): string
    requires |pat| > 0
    decreases |s|
  {
    if |s| < |pat| then s
    else if s[..|pat|] == pat then RemoveAll(s[|pat|..], pat)
    else [s[0]] + RemoveAll(s[1..], pat)
  }

  lemma {:induction false} MatchAtShift(s: string, pat: string, i: int)
    requires s != [] && 0 <= i
    ensures MatchAt(s[1..], pat, i) <==> MatchAt(s, pat, i + 1)
  {
    if i + 1 + |pat| <= |s| {
      assert s[1..][i..i + |pat|] == s[i + 1..i + 1 + |pat|];
    }
  }

  /** A prefix in which no occurrence starts passes through RemoveAll unchanged. */
  lemma {:induction false} RemoveAllSkipsPrefix(c: string, t: string, pat: string)
    requires |pat| > 0
    requires forall i :: 0 <= i < |c| ==> !MatchAt(c + t, pat, i)
    ensures RemoveAll(c + t, pat) == c + RemoveAll(t, pat)
  {
    if c != [] {
      var s := c + t;
      assert s[1..] == c[1..] + t;
      forall i | 0 <= i < |c[1..]| ensures !MatchAt(c[1..] + t, pat, i) {
        MatchAtShift(s, pat, i);
        assert !MatchAt(s, pat, i + 1);
      }
      RemoveAllSkipsPrefix(c[1..], t, pat);
      assert !MatchAt(s, pat, 0);
      if |s| >= |pat| {
        assert s[..|pat|] != pat;
        calc {
          RemoveAll(s, pat);
          [s[0]] + RemoveAll(s[1..], pat);
          [c[0]] + RemoveAll(c[1..] + t, pat);
          [c[0]] + (c[1..] + RemoveAll(t, pat));
          { assert c == [c[0]] + c[1..]; }
          c + RemoveAll(t, pat);
        }
      } else {
        assert RemoveAll(s, pat) == s;
        assert RemoveAll(t, pat) == t;
      }
    } else {
      assert c + t == t;
    }
  }

  /** os.path.basename: the part after the last '/'. */
  function Basename(p: string): (r: string)
    ensures '/' !in r
  {
    if p == [] || p[|p| - 1] == '/' then [] else Basename(p[..|p| - 1]) + [p[|p| - 1]]
  }

  /** A '/'-free name is its own basename, and is the basename of any path ending in '/' + name. */
  lemma {:induction false} BasenameAfterSlash(d: string, b: string)
    requires '/' !in b
    ensures Basename(d + "/" + b) == b
    ensures Basename(b) == b
  {
    if b != [] {
      var p := d + "/" + b;
      BasenameAfterSlash(d, b[..|b| - 1]);
      assert p[..|p| - 1] == d + "/" + b[..|b| - 1];
      assert b[..|b| - 1] + [b[|b| - 1]] == b;
    }
  }

  /** os.path.join(d, b) for a relative `b`. */
  function JoinPath(d: string, b: string): string {
    if d == [] || d[|d| - 1] == '/' then d + b else d + "/" + b
  }

  /** Joining a directory and a file name keeps the file name as the basename. */
  lemma {:induction false} BasenameOfJoin(d: string, b: string)
    requires '/' !in b
    ensures Basename(JoinPath(d, b)) == b
  {
    BasenameAfterSlash(d, b);
    if d != [] && d[|d| - 1] == '/' {
      assert d + b == d[..|d| - 1] + "/" + b;
      BasenameAfterSlash(d[..|d| - 1], b);
    } else if d == [] {
      assert d + b == b;
    }
  }
}
