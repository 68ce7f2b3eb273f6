/** Models of the few functions of Go's `strings` and `unicode` packages that the
    playlist formatter calls. Strings are sequences of Unicode scalar values, i.e.
    the decoded runes of a valid UTF-8 Go string. */
module GoStrings {

  /** The characters unicode.IsSpace accepts: '\t', '\n', '\v', '\f', '\r', ' ', U+0085 and
      U+00A0, plus the remaining code points with the White_Space property. */
  const SpaceChars: set<char> := {
    '\t', '\n', '\U{B}', '\U{C}', '\r', ' ', '\U{85}', '\U{A0}', '\U{1680}',
    '\U{2000}', '\U{2001}', '\U{2002}', '\U{2003}', '\U{2004}', '\U{2005}',
    '\U{2006}', '\U{2007}', '\U{2008}', '\U{2009}', '\U{200A}',
    '\U{2028}', '\U{2029}', '\U{202F}', '\U{205F}', '\U{3000}'
  }

  /** unicode.IsSpace */
  predicate IsSpace(c: char) {
    c in SpaceChars
  }

  predicate IsAsciiUpper(c: char) {
    'A' <= c <= 'Z'
  }

  lemma SpaceIsNotUpper(c: char)
    requires IsSpace(c)
    ensures !IsAsciiUpper(c)
  {
  }

  /** The ASCII part of unicode.ToLower: 'A'..'Z' become 'a'..'z', everything else is kept. */
  function LowerChar(c: char): (r: char)
    ensures !IsAsciiUpper(r)
    ensures !IsAsciiUpper(c) ==> r == c
  {
    if IsAsciiUpper(c) then (c as int + 32) as char else c
  }

  /** strings.HasSuffix */
  predicate HasSuffix(s: string, suffix: string) {
    |suffix| <= |s| && s[|s| - |suffix|..] == suffix
  }

  /** HasSuffix holds exactly when `s` is some string followed by `suffix`. */
  lemma HasSuffixIff(s: string, suffix: string)
    ensures HasSuffix(s, suffix) <==> exists p :: s == p + suffix
  {
    if HasSuffix(s, suffix) {
      var p := s[..|s| - |suffix|];
      assert s == p + suffix;
    }
    if exists p :: s == p + suffix {
      var p :| s == p + suffix;
      assert s[|p|..] == suffix;
    }
  }

  /** strings.Count for a one-character separator: the number of occurrences of `c`. */
  function CountChar(s: string, c: char): (n: nat)
    ensures n <= |s|
    ensures n == 0 <==> c !in s
  {
    if s == [] then 0
    else (if s[0] == c then 1 else 0) + CountChar(s[1..], c)
  }

  lemma {:induction false} CountCharAppend(a: string, b: string, c: char)
    ensures CountChar(a + b, c) == CountChar(a, c) + CountChar(b, c)
  {
    if a != [] {
      assert (a + b)[1..] == a[1..] + b;
      CountCharAppend(a[1..], b, c);
    } else {
      assert a + b == b;
    }
  }

  /** strings.Replace(s, [c], "", -1): every occurrence of `c` removed, the rest kept. */
  function RemoveAll(s: string, c: char): (r: string)
    ensures c !in r
    ensures |r| + CountChar(s, c) == |s|
  {
    if s == [] then []
    else if s[0] == c then RemoveAll(s[1..], c)
    else [s[0]] + RemoveAll(s[1..], c)
  }

  /** Removal only drops characters: whatever remains was in the input. */
  lemma {:induction false} RemoveAllKeeps(s: string, c: char, x: char)
    requires x in RemoveAll(s, c)
    ensures x in s
  {
    if s != [] && x != s[0] {
      RemoveAllKeeps(s[1..], c, x);
    }
  }

  /** Removing a character that does not occur changes nothing. */
  lemma {:induction false} RemoveAllAbsent(s: string, c: char)
    requires c !in s
    ensures RemoveAll(s, c) == s
  {
    if s != [] {
      assert s[0] != c;
      RemoveAllAbsent(s[1..], c);
    }
  }

  /** Removing one character from a one-character string drops it or keeps it. */
  lemma RemoveAllSingle(x: char, c: char)
    ensures RemoveAll([x], c) == if x == c then [] else [x]
  {
  }

  /** Removal works piece by piece: with RemoveAllSingle this fixes the result exactly,
      namely the characters other than `c`, in their original order. */
  lemma {:induction false} RemoveAllAppend(a: string, b: string, c: char)
    ensures RemoveAll(a + b, c) == RemoveAll(a, c) + RemoveAll(b, c)
  {
    if a == [] {
      assert a + b == b;
    } else {
      assert (a + b)[0] == a[0];
      assert (a + b)[1..] == a[1..] + b;
      RemoveAllAppend(a[1..], b, c);
      if a[0] != c {
        assert [a[0]] + (RemoveAll(a[1..], c) + RemoveAll(b, c))
          == ([a[0]] + RemoveAll(a[1..], c)) + RemoveAll(b, c);
      }
    }
  }

  /** strings.ToLower, folding ASCII letters only. */
  function ToLower(s: string): (r: string)
    ensures |r| == |s|
  {
    if s == [] then []
    else [LowerChar(s[0])] + ToLower(s[1..])
  }

  /** ToLower works character by character. */
  lemma {:induction false} ToLowerAt(s: string)
    ensures forall i | 0 <= i < |s| :: ToLower(s)[i] == LowerChar(s[i])
  {
    if s != [] {
      ToLowerAt(s[1..]);
      forall i | 1 <= i < |s| ensures ToLower(s)[i] == LowerChar(s[i]) {
        assert ToLower(s)[i] == ToLower(s[1..])[i - 1];
      }
    }
  }

  /** A string without ASCII capitals is its own lower-case form. */
  lemma ToLowerAbsent(s: string)
    requires forall x | x in s :: !IsAsciiUpper(x)
    ensures ToLower(s) == s
  {
    ToLowerAt(s);
    assert forall i | 0 <= i < |s| :: ToLower(s)[i] == s[i];
  }

  /** Lower-casing works piece by piece. */
  lemma ToLowerAppend(a: string, b: string)
    ensures ToLower(a + b) == ToLower(a) + ToLower(b)
  {
    ToLowerAt(a);
    ToLowerAt(b);
    ToLowerAt(a + b);
    forall i | 0 <= i < |a + b| ensures ToLower(a + b)[i] == (ToLower(a) + ToLower(b))[i] {
      if i >= |a| {
        assert (a + b)[i] == b[i - |a|];
      }
    }
  }

  /** Lower-casing neither creates nor removes white space. */
  lemma LowerCharSpace(c: char)
    ensures IsSpace(LowerChar(c)) <==> IsSpace(c)
  {
    if IsAsciiUpper(c) {
      assert !IsSpace(c);
      assert 'a' <= LowerChar(c) <= 'z';
    }
  }

  /** Leading white space removed. */
  function TrimLeft(s: string): (r: string)
    ensures |r| <= |s|
    ensures r == [] || !IsSpace(r[0])
  {
    if s != [] && IsSpace(s[0]) then TrimLeft(s[1..]) else s
  }

  /** TrimLeft keeps the suffix of `s` that follows its leading white space. */
  lemma {:induction false} TrimLeftSuffix(s: string)
    ensures var r := TrimLeft(s);
      r == s[|s| - |r|..] && forall k | 0 <= k < |s| - |r| :: IsSpace(s[k])
  {
    if s != [] && IsSpace(s[0]) {
      TrimLeftSuffix(s[1..]);
      var r := TrimLeft(s);
      assert r == TrimLeft(s[1..]);
      assert s[1..][|s| - 1 - |r|..] == s[|s| - |r|..];
      forall k | 0 <= k < |s| - |r| ensures IsSpace(s[k]) {
        if k > 0 {
          assert s[k] == s[1..][k - 1];
        }
      }
    } else {
      assert s[0..] == s;
    }
  }

  /** Trailing white space removed. */
  function TrimRight(s: string): (r: string)
    ensures |r| <= |s|
    ensures r == [] || !IsSpace(r[|r| - 1])
  {
    if s != [] && IsSpace(s[|s| - 1]) then TrimRight(s[..|s| - 1]) else s
  }

  /** TrimRight keeps the prefix of `s` that precedes its trailing white space. */
  lemma {:induction false} TrimRightPrefix(s: string)
    ensures var r := TrimRight(s);
      r == s[..|r|] && forall k | |r| <= k < |s| :: IsSpace(s[k])
  {
    if s != [] && IsSpace(s[|s| - 1]) {
      var p := s[..|s| - 1];
      TrimRightPrefix(p);
      var r := TrimRight(s);
      assert r == TrimRight(p);
      assert p[..|r|] == s[..|r|];
      forall k | |r| <= k < |s| ensures IsSpace(s[k]) {
        if k < |p| {
          assert p[k] == s[k];
        }
      }
    } else {
      assert s[..|s|] == s;
    }
  }

  /** strings.TrimSpace: leading and trailing white space removed. */
  function TrimSpace(s: string): (r: string)
    ensures |r| <= |s|
    ensures r == [] || (!IsSpace(r[0]) && !IsSpace(r[|r| - 1]))
  {
    TrimRightPrefix(TrimLeft(s));
    TrimRight(TrimLeft(s))
  }

  lemma {:induction false} TrimLeftKeeps(s: string, x: char)
    requires x in TrimLeft(s)
    ensures x in s
  {
    if s != [] && IsSpace(s[0]) {
      TrimLeftKeeps(s[1..], x);
    }
  }

  lemma {:induction false} TrimRightKeeps(s: string, x: char)
    requires x in TrimRight(s)
    ensures x in s
  {
    if s != [] && IsSpace(s[|s| - 1]) {
      TrimRightKeeps(s[..|s| - 1], x);
    }
  }

  /** Trimming only drops characters: whatever remains was in the input. */
  lemma TrimSpaceKeeps(s: string)
    ensures forall x | x in TrimSpace(s) :: x in s
  {
    forall x | x in TrimSpace(s) ensures x in s {
      TrimRightKeeps(TrimLeft(s), x);
      TrimLeftKeeps(s, x);
    }
  }

  /** A string with no white space at either end is left as it is. */
  lemma TrimSpaceAbsent(s: string)
    requires s == [] || (!IsSpace(s[0]) && !IsSpace(s[|s| - 1]))
    ensures TrimSpace(s) == s
  {
  }

  /** A string of nothing but white space trims to "". */
  lemma {:induction false} TrimSpaceAllSpace(s: string)
    requires forall x | x in s :: IsSpace(x)
    ensures TrimLeft(s) == [] && TrimSpace(s) == []
  {
    if s != [] {
      assert s[0] in s;
      TrimSpaceAllSpace(s[1..]);
    }
  }

  /** TrimSpace(s) is the slice of `s` between its leading and its trailing white space;
      together with the ends of the result not being white space, this fixes the slice. */
  lemma TrimSpaceSlice(s: string)
    ensures var a := |s| - |TrimLeft(s)|; var b := a + |TrimSpace(s)|;
      b <= |s| && TrimSpace(s) == s[a..b]
      && (forall k | 0 <= k < a :: IsSpace(s[k]))
      && (forall k | b <= k < |s| :: IsSpace(s[k]))
  {
    var l := TrimLeft(s);
    TrimLeftSuffix(s);
    TrimRightPrefix(l);
    SuffixPrefix(s, |s| - |l|, l, |TrimRight(l)|);
  }

  /** A prefix `l[..m]` of a suffix `l == s[a..]` is the slice `s[a..a + m]`, and what
      follows it in `l` is what follows `a + m` in `s`. */
  lemma SuffixPrefix(s: string, a: nat, l: string, m: nat)
    requires a <= |s| && l == s[a..] && m <= |l|
    requires forall k | m <= k < |l| :: IsSpace(l[k])
    ensures l[..m] == s[a..a + m]
    ensures forall k | a + m <= k < |s| :: IsSpace(s[k])
  {
    forall k | a + m <= k < |s| ensures IsSpace(s[k]) {
      assert s[k] == l[k - a];
    }
  }

  lemma {:induction false} TrimLeftSpaces(u: string, t: string)
    requires forall y | y in u :: IsSpace(y)
    requires t == [] || !IsSpace(t[0])
    ensures TrimLeft(u + t) == t
  {
    if u == [] {
      assert u + t == t;
    } else {
      assert u[0] in u;
      assert (u + t)[0] == u[0];
      assert (u + t)[1..] == u[1..] + t;
      TrimLeftSpaces(u[1..], t);
    }
  }

  lemma {:induction false} TrimRightSpaces(t: string, x: string)
    requires forall y | y in x :: IsSpace(y)
    requires t == [] || !IsSpace(t[|t| - 1])
    ensures TrimRight(t + x) == t
  {
    if x == [] {
      assert t + x == t;
    } else {
      var p := x[..|x| - 1];
      assert x[|x| - 1] in x;
      assert (t + x)[|t + x| - 1] == x[|x| - 1];
      assert (t + x)[..|t + x| - 1] == t + p;
      assert forall y | y in p :: y in x;
      TrimRightSpaces(t, p);
    }
  }

  /** White space around a string whose ends are not white space is exactly what
      TrimSpace removes. */
  lemma TrimSpaceSurrounded(u: string, v: string, x: string)
    requires forall y | y in u :: IsSpace(y)
    requires forall y | y in x :: IsSpace(y)
    requires v == [] || (!IsSpace(v[0]) && !IsSpace(v[|v| - 1]))
    ensures TrimSpace(u + v + x) == v
  {
    if v == [] {
      assert u + v + x == u + x;
      TrimSpaceAllSpace(u + x);
    } else {
      assert u + v + x == u + (v + x);
      assert (v + x)[0] == v[0];
      TrimLeftSpaces(u, v + x);
      TrimRightSpaces(v, x);
    }
  }
}
