/** The Python string operations the keep-alive script relies on:
    `str.strip()`, `str.split(sep)` with a one-character separator,
    `sub in s`, `str.startswith`, `str.replace` with a one-character
    pattern, and `str.lower()` (ASCII letters only). */
module Text {
  import opened Results

  /** The code points Python's `str.isspace` accepts: the characters
      `str.strip()` with no argument removes. */
  const SpaceCodes: set<int> := {
    0x09, 0x0A, 0x0B, 0x0C, 0x0D, 0x1C, 0x1D, 0x1E, 0x1F, 0x20, 0x85, 0xA0, 0x1680,
    0x2000, 0x2001, 0x2002, 0x2003, 0x2004, 0x2005, 0x2006, 0x2007, 0x2008, 0x2009, 0x200A,
    0x2028, 0x2029, 0x202F, 0x205F, 0x3000
  }

  predicate IsSpace(c: char) {
    c as int in SpaceCodes
  }

  predicate AllSpace(s: string) {
    forall i :: 0 <= i < |s| ==> IsSpace(s[i])
  }

  /** Neither starts nor ends with whitespace. */
  predicate Trimmed(s: string) {
    |s| == 0 || (!IsSpace(s[0]) && !IsSpace(s[|s| - 1]))
  }

  /** `s` is `r` with some (possibly no) whitespace added on either side. */
  predicate PaddedBySpace(s: string, r: string) {
    exists i :: 0 <= i <= |s| - |r| && s[i..i + |r|] == r && AllSpace(s[..i]) && AllSpace(s[i + |r|..])
  }

  function StripStart(s: string): (r: string)
    ensures |r| <= |s| && r == s[|s| - |r|..]
    ensures AllSpace(s[..|s| - |r|])
    ensures |r| > 0 ==> !IsSpace(r[0])
  {
    if |s| > 0 && IsSpace(s[0]) then
      var r := StripStart(s[1..]);
      StripStartStep(s, r);
      r
    else s
  }

  /** Dropping one leading space keeps the stripped suffix a suffix of `s`,
      after only whitespace. */
  lemma StripStartStep(s: string, r: string)
    requires |s| > 0 && IsSpace(s[0])
    requires |r| <= |s| - 1 && r == s[1..][|s| - 1 - |r|..] && AllSpace(s[1..][..|s| - 1 - |r|])
    ensures r == s[|s| - |r|..] && AllSpace(s[..|s| - |r|])
  {
    assert s[1..][|s| - 1 - |r|..] == s[|s| - |r|..];
    assert s[..|s| - |r|] == [s[0]] + s[1..][..|s| - 1 - |r|];
  }

  function StripEnd(s: string): (r: string)
    ensures |r| <= |s| && r == s[..|r|]
    ensures AllSpace(s[|r|..])
    ensures |r| > 0 ==> !IsSpace(r[|r| - 1])
  {
    if |s| > 0 && IsSpace(s[|s| - 1]) then
      var r := StripEnd(s[..|s| - 1]);
      assert s[|r|..] == s[..|s| - 1][|r|..] + [s[|s| - 1]];
      r
    else s
  }

  /** Python's `s.strip()`. */
  function Strip(s: string): (r: string)
    ensures Trimmed(r)
    ensures |r| <= |s|
  {
    var t := StripStart(s);
    var r := StripEnd(t);
    assert |r| > 0 ==> r[0] == t[0];
    r
  }

  /** `s` is its stripped text with whitespace added on either side. */
  lemma StripPadded(s: string)
    ensures PaddedBySpace(s, Strip(s))
  {
    var t := StripStart(s);
    var r := StripEnd(t);
    var i := |s| - |t|;
    assert s[i..] == t && t[..|r|] == r;
    assert s[i..i + |r|] == r;
    assert AllSpace(s[i + |r|..]) by { assert s[i + |r|..] == t[|r|..]; }
    PaddedAt(s, r, i);
  }

  /** The stripped text is the only trimmed string that `s` pads with
      whitespace: `Strip` agrees with this declarative description. */
  lemma StripUnique(s: string, r: string)
    requires Trimmed(r) && PaddedBySpace(s, r)
    ensures Strip(s) == r
  {
    var i :| 0 <= i <= |s| - |r| && s[i..i + |r|] == r && AllSpace(s[..i]) && AllSpace(s[i + |r|..]);
    if |r| == 0 {
      StripAllSpace(s, i);
    } else {
      StripTrimmedAt(s, r, i);
    }
  }

  lemma StripAllSpace(s: string, i: nat)
    requires i <= |s| && AllSpace(s[..i]) && AllSpace(s[i..])
    ensures Strip(s) == ""
  {
    assert AllSpace(s) by {
      forall k | 0 <= k < |s| ensures IsSpace(s[k]) {
        if k < i { assert s[..i][k] == s[k]; } else { assert s[i..][k - i] == s[k]; }
      }
    }
    StripStartAllSpace(s);
  }

  lemma StripTrimmedAt(s: string, r: string, i: nat)
    requires 0 < |r| && Trimmed(r) && i + |r| <= |s| && s[i..i + |r|] == r
    requires AllSpace(s[..i]) && AllSpace(s[i + |r|..])
    ensures Strip(s) == r
  {
    assert s[i] == r[0];
    StripStartAt(s, i);
    var t := s[i..];
    assert t[|r| - 1] == r[|r| - 1];
    assert t[|r|..] == s[i + |r|..];
    StripEndAt(t, |r|);
    assert t[..|r|] == r;
    assert Strip(s) == StripEnd(t);
  }

  lemma {:induction false} StripStartAllSpace(s: string)
    requires AllSpace(s)
    ensures StripStart(s) == ""
  {
    if |s| > 0 {
      StripStartAllSpace(s[1..]);
    }
  }

  lemma {:induction false} StripStartAt(s: string, i: nat)
    requires i < |s| && AllSpace(s[..i]) && !IsSpace(s[i])
    ensures StripStart(s) == s[i..]
  {
    if i > 0 {
      assert s[1..][..i - 1] == s[1..i];
      assert s[0] == s[..i][0];
      StripStartAt(s[1..], i - 1);
      assert s[1..][i - 1..] == s[i..];
    }
  }

  lemma {:induction false} StripEndAt(t: string, j: nat)
    requires 0 < j <= |t| && AllSpace(t[j..]) && !IsSpace(t[j - 1])
    ensures StripEnd(t) == t[..j]
  {
    if j < |t| {
      var t' := t[..|t| - 1];
      assert t[|t| - 1] == t[j..][|t| - 1 - j];
      assert t'[j..] == t[j..|t| - 1];
      assert t'[j - 1] == t[j - 1];
      StripEndAt(t', j);
      assert t'[..j] == t[..j];
    }
  }

  /** A string that does not start with whitespace keeps its first
      character when stripped. */
  lemma StripKeepsHead(s: string)
    requires |s| > 0 && !IsSpace(s[0])
    ensures |Strip(s)| > 0 && Strip(s)[0] == s[0]
  {
    assert s[..0] == [];
    StripStartAt(s, 0);
    assert !AllSpace(s[0..]) by { assert s[0..][0] == s[0]; }
  }

  /** Stripping keeps only characters of the original. */
  lemma StripKeepsChars(s: string, c: char)
    requires c in Strip(s)
    ensures c in s
  {
    StripPadded(s);
    PaddedKeepsChars(s, Strip(s), c);
  }

  lemma PaddedKeepsChars(s: string, r: string, c: char)
    requires PaddedBySpace(s, r) && c in r
    ensures c in s
  {
    var i :| 0 <= i <= |s| - |r| && s[i..i + |r|] == r && AllSpace(s[..i]) && AllSpace(s[i + |r|..]);
    var j :| 0 <= j < |r| && r[j] == c;
    assert s[i + j] == c;
  }

  lemma PaddedAt(s: string, r: string, i: int)
    requires 0 <= i <= |s| - |r| && s[i..i + |r|] == r
    requires AllSpace(s[..i]) && AllSpace(s[i + |r|..])
    ensures PaddedBySpace(s, r)
  {
  }

  /** Stripping a trimmed string changes nothing. */
  lemma {:induction false} StripTrimmed(s: string)
    requires Trimmed(s)
    ensures Strip(s) == s
  {
    if |s| > 0 {
      assert StripStart(s) == s;
      assert StripEnd(s) == s;
    }
  }

  /** `str.strip` is idempotent. */
  lemma StripIdempotent(s: string)
    ensures Strip(Strip(s)) == Strip(s)
  {
    StripTrimmed(Strip(s));
  }

  /** The index of the first `c` in `s` (what `s.split(c, 1)` cuts at). */
  function IndexOf(s: string, c: char): (r: Option<nat>)
    ensures r.None? <==> c !in s
    ensures r.Some? ==> r.value < |s| && s[r.value] == c && c !in s[..r.value]
  {
    if |s| == 0 then None
    else if s[0] == c then Some(0)
    else
      match IndexOf(s[1..], c)
      case None => None
      case Some(k) =>
        assert s[..k + 1] == [s[0]] + s[1..][..k];
        Some(k + 1)
  }

  /** The first `c` of a string that starts with `p` then `c`, where `p` has
      no `c`, sits right after `p`. */
  lemma IndexOfAfter(p: string, c: char, s: string)
    requires c !in p && |p| < |s| && s[..|p|] == p && s[|p|] == c
    ensures IndexOf(s, c) == Some(|p|)
  {
  }

  /** Python's `s.split(sep)` for a one-character separator: the pieces
      between consecutive separators, always at least one. */
  function Split(s: string, sep: char): (parts: seq<string>)
    ensures |parts| >= 1
    ensures forall i :: 0 <= i < |parts| ==> sep !in parts[i]
  {
    if |s| == 0 then [""]
    else
      var rest := Split(s[1..], sep);
      if s[0] == sep then [""] + rest
      else [[s[0]] + rest[0]] + rest[1..]
  }

  /** Python's `sep.join(parts)` for a one-character separator. */
  function Join(parts: seq<string>, sep: char): string {
    if |parts| == 0 then ""
    else if |parts| == 1 then parts[0]
    else parts[0] + [sep] + Join(parts[1..], sep)
  }

  /** Joining the pieces again gives back the split string. */
  lemma {:induction false} JoinSplit(s: string, sep: char)
    ensures Join(Split(s, sep), sep) == s
  {
    if |s| > 0 {
      var rest := Split(s[1..], sep);
      JoinSplit(s[1..], sep);
      if s[0] == sep {
        assert Split(s, sep) == [""] + rest;
        assert ([""] + rest)[1..] == rest;
      } else {
        var parts := Split(s, sep);
        assert parts == [[s[0]] + rest[0]] + rest[1..];
        if |rest| == 1 {
          assert Join(parts, sep) == [s[0]] + rest[0];
        } else {
          assert parts[1..] == rest[1..];
          assert Join(rest, sep) == rest[0] + [sep] + Join(rest[1..], sep);
        }
      }
    }
  }

  /** Splitting at a separator splits the two sides independently. */
  lemma {:induction false} SplitAppend(a: string, b: string, sep: char)
    ensures Split(a + [sep] + b, sep) == Split(a, sep) + Split(b, sep)
  {
    var s := a + [sep] + b;
    if |a| == 0 {
      assert s[0] == sep && s[1..] == b;
      assert Split(s, sep) == [""] + Split(b, sep);
    } else {
      assert s[1..] == a[1..] + [sep] + b;
      SplitAppend(a[1..], b, sep);
      SplitStep(s, sep);
      SplitStep(a, sep);
      assert s[0] == a[0];
      PieceCons(a[0], sep, Split(a[1..], sep), Split(b, sep));
    }
  }

  /** One step of `Split`: the first character starts a new piece or joins
      the first piece of the rest. */
  lemma SplitStep(s: string, sep: char)
    requires |s| > 0
    ensures Split(s, sep) == Cons(s[0], sep, Split(s[1..], sep))
  {
  }

  function Cons(c: char, sep: char, rest: seq<string>): seq<string>
    requires |rest| >= 1
  {
    if c == sep then [""] + rest else [[c] + rest[0]] + rest[1..]
  }

  lemma PieceCons(c: char, sep: char, xs: seq<string>, ys: seq<string>)
    requires |xs| >= 1
    ensures Cons(c, sep, xs + ys) == Cons(c, sep, xs) + ys
  {
    if c != sep {
      assert (xs + ys)[0] == xs[0];
      assert (xs + ys)[1..] == xs[1..] + ys;
    }
  }

  /** A string without the separator is a single piece. */
  lemma {:induction false} SplitNoSeparator(s: string, sep: char)
    requires sep !in s
    ensures Split(s, sep) == [s]
  {
    if |s| > 0 {
      SplitNoSeparator(s[1..], sep);
      assert [s[0]] + s[1..] == s;
    }
  }

  /** Python's `s.startswith(p)`. */
  predicate StartsWith(s: string, p: string) {
    |p| <= |s| && s[..|p|] == p
  }

  /** Python's `sub in s` for strings. */
  predicate Contains(s: string, sub: string)
    decreases |s|
  {
    StartsWith(s, sub) || (|s| > 0 && Contains(s[1..], sub))
  }

  /** `sub in s` holds exactly when `sub` sits at some offset of `s`. */
  lemma {:induction false} ContainsAt(s: string, sub: string, i: nat)
    requires i + |sub| <= |s| && s[i..i + |sub|] == sub
    ensures Contains(s, sub)
  {
    if i > 0 {
      assert s[1..][i - 1..i - 1 + |sub|] == s[i..i + |sub|];
      ContainsAt(s[1..], sub, i - 1);
    }
  }

  /** A string containing `sub` contains its first character. */
  lemma {:induction false} ContainsHead(s: string, sub: string)
    ensures |sub| > 0 && Contains(s, sub) ==> sub[0] in s
  {
    if |sub| > 0 && Contains(s, sub) {
      if StartsWith(s, sub) {
        assert s[0] == sub[0];
      } else {
        ContainsHead(s[1..], sub);
        var j :| 0 <= j < |s[1..]| && s[1..][j] == sub[0];
        assert s[j + 1] == sub[0];
      }
    }
  }

  /** A string containing `p + q` contains `q`. */
  lemma {:induction false} ContainsSuffix(s: string, p: string, q: string)
    requires Contains(s, p + q)
    ensures Contains(s, q)
  {
    if StartsWith(s, p + q) {
      assert s[|p|..|p| + |q|] == (p + q)[|p|..];
      ContainsAt(s, q, |p|);
    } else {
      ContainsSuffix(s[1..], p, q);
    }
  }

  /** ASCII lower-casing of one character. */
  function LowerChar(c: char): char {
    if 'A' <= c <= 'Z' then (c as int + 32) as char else c
  }

  /** Python's `s.lower()`, restricted to ASCII letters. */
  function Lower(s: string): (r: string)
    ensures |r| == |s|
    ensures forall i :: 0 <= i < |s| ==> r[i] == LowerChar(s[i])
  {
    seq(|s|, i requires 0 <= i < |s| => LowerChar(s[i]))
  }

  /** Lower-casing keeps substrings: `sub in s` implies `sub.lower() in s.lower()`. */
  lemma {:induction false} ContainsLower(s: string, sub: string)
    requires Contains(s, sub)
    ensures Contains(Lower(s), Lower(sub))
  {
    if StartsWith(s, sub) {
      assert Lower(s)[..|sub|] == Lower(sub);
    } else {
      ContainsLower(s[1..], sub);
      assert Lower(s)[1..] == Lower(s[1..]);
    }
  }

  /** Python's `s.replace(c, rep)` for a one-character pattern `c`. */
  function ReplaceChar(s: string, c: char, rep: string): (r: string)
    ensures c !in rep ==> c !in r
    ensures forall d :: d in r ==> d in s || d in rep
    ensures forall d :: d in s && d != c ==> d in r
    ensures c !in s ==> r == s
  {
    if |s| == 0 then ""
    else
      var rest := ReplaceChar(s[1..], c, rep);
      assert forall d :: d in s ==> d == s[0] || d in s[1..];
      (if s[0] == c then rep else [s[0]]) + rest
  }

  /** Replacing distributes over concatenation. */
  lemma {:induction false} ReplaceCharAppend(a: string, b: string, c: char, rep: string)
    ensures ReplaceChar(a + b, c, rep) == ReplaceChar(a, c, rep) + ReplaceChar(b, c, rep)
  {
    if |a| > 0 {
      assert (a + b)[1..] == a[1..] + b;
      ReplaceCharAppend(a[1..], b, c, rep);
    } else {
      assert a + b == b;
    }
  }
}
