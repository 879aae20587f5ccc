/** The few Python `str` methods the capture and connection code relies on,
    over `string`: `replace(pat, '')`, `lower()` and `strip()`. Case mapping
    and white space are the ASCII ones. */
module Text {

  /** pat occurs in s at position i. */
  ghost predicate OccursAt(s: string, pat: string, i: int)
  {
    0 <= i && i + |pat| <= |s| && s[i..i + |pat|] == pat
  }

  ghost predicate Occurs(s: string, pat: string)
  {
    exists i :: OccursAt(s, pat, i)
  }

  /** `s.replace(pat, '')`: the occurrences of pat found scanning from the
      left, each search resuming after the one removed, are deleted. */
  function Without(s: string, pat: string): (r: string)
    requires pat != []
    ensures |r| <= |s|
    decreases |s|
  {
    if |s| < |pat| then s
    else if s[..|pat|] == pat then Without(s[|pat|..], pat)
    else [s[0]] + Without(s[1..], pat)
  }

  /** A string in which pat does not occur is left as it is. */
  lemma {:induction false} WithoutAbsent(s: string, pat: string)
    requires pat != [] && !Occurs(s, pat)
    ensures Without(s, pat) == s
    decreases |s|
  {
    if |s| >= |pat| {
      assert !OccursAt(s, pat, 0);
      assert s[..|pat|] != pat;
      forall i | OccursAt(s[1..], pat, i)
        ensures false
      {
        assert s[1..][i..i + |pat|] == s[i + 1..i + 1 + |pat|];
        assert OccursAt(s, pat, i + 1);
      }
      WithoutAbsent(s[1..], pat);
      assert [s[0]] + s[1..] == s;
    }
  }

  /** Removing a prefix from the prefixed name gives the name back, when the
      prefix does not occur in the name (`str(Key.shift)` is "Key.shift"). */
  lemma WithoutPrefix(prefix: string, name: string)
    requires prefix != [] && !Occurs(name, prefix)
    ensures Without(prefix + name, prefix) == name
  {
    assert (prefix + name)[..|prefix|] == prefix;
    assert (prefix + name)[|prefix|..] == name;
    WithoutAbsent(name, prefix);
  }

  predicate IsUpper(c: char)
  {
    'A' <= c <= 'Z'
  }

  function LowerChar(c: char): (r: char)
    ensures !IsUpper(r)
    ensures IsUpper(c) ==> r as int == c as int + 32
    ensures !IsUpper(c) ==> r == c
  {
    if IsUpper(c) then (c as int + 32) as char else c
  }

  /** `s.lower()` for ASCII letters. */
  function Lower(s: string): (r: string)
    ensures |r| == |s|
    ensures forall i :: 0 <= i < |s| ==> r[i] == LowerChar(s[i])
  {
    if s == [] then [] else [LowerChar(s[0])] + Lower(s[1..])
  }

  /** Lower-casing twice is lower-casing once. */
  lemma LowerIdempotent(s: string)
    ensures Lower(Lower(s)) == Lower(s)
  {
    var once := Lower(s);
    forall i | 0 <= i < |s|
      ensures Lower(once)[i] == once[i]
    {
      assert !IsUpper(once[i]);
    }
  }

  /** The ASCII characters `str.strip()` removes: space, tab, line feed,
      vertical tab, form feed, carriage return, and the four separators
      0x1C to 0x1F that `str.isspace()` also counts. */
  predicate IsSpace(c: char)
  {
    c == ' ' || c == '\t' || c == '\n' || c == '\r' || c == '\U{B}' || c == '\U{C}'
    || ('\U{1C}' <= c <= '\U{1F}')
  }

  /** Every character of s is white space. */
  predicate AllSpace(s: string)
  {
    forall k :: 0 <= k < |s| ==> IsSpace(s[k])
  }

  /** `s.lstrip()`: the leading white space removed. */
  function StripStart(s: string): (r: string)
    ensures |r| <= |s| && r == s[|s| - |r|..]
    ensures AllSpace(s[..|s| - |r|])
    ensures r == [] || !IsSpace(r[0])
  {
    if s != [] && IsSpace(s[0]) then
      var r := StripStart(s[1..]);
      assert r == s[|s| - |r|..] by {
        assert s[1..][|s| - 1 - |r|..] == s[|s| - |r|..];
      }
      SpaceCons(s, |s| - |r|);
      r
    else s
  }

  /** `s.rstrip()`: the trailing white space removed. */
  function StripEnd(s: string): (r: string)
    ensures |r| <= |s| && r == s[..|r|]
    ensures AllSpace(s[|r|..])
    ensures r == [] || !IsSpace(r[|r| - 1])
  {
    if s != [] && IsSpace(s[|s| - 1]) then
      var r := StripEnd(s[..|s| - 1]);
      SpaceSnoc(s, |r|);
      r
    else s
  }

  lemma SpaceCons(s: string, n: nat)
    requires 0 < n <= |s| && IsSpace(s[0]) && AllSpace(s[1..][..n - 1])
    ensures AllSpace(s[..n])
  {
    forall k | 1 <= k < n
      ensures IsSpace(s[..n][k])
    {
      assert s[..n][k] == s[1..][..n - 1][k - 1];
    }
  }

  lemma SpaceSnoc(s: string, n: nat)
    requires n < |s| && IsSpace(s[|s| - 1]) && AllSpace(s[..|s| - 1][n..])
    ensures AllSpace(s[n..])
  {
    forall k | 0 <= k < |s| - 1 - n
      ensures IsSpace(s[n..][k])
    {
      assert s[n..][k] == s[..|s| - 1][n..][k];
    }
  }

  /** White space up to i and from i on is white space throughout. */
  lemma SpaceJoin(s: string, i: nat)
    requires i <= |s| && AllSpace(s[..i]) && AllSpace(s[i..])
    ensures AllSpace(s)
  {
    forall k | 0 <= k < |s|
      ensures IsSpace(s[k])
    {
      if k < i {
        assert s[k] == s[..i][k];
      } else {
        assert s[k] == s[i..][k - i];
      }
    }
  }

  /** `s.strip()`: white space removed at both ends; what remains is the
      segment of s between a run of white space at the start and one at the
      end, it neither starts nor ends with white space, and it is empty
      exactly when s is all white space. */
  function Strip(s: string): (r: string)
    ensures exists i, j :: 0 <= i <= j <= |s| && r == s[i..j] && AllSpace(s[..i]) && AllSpace(s[j..])
    ensures r == [] || (!IsSpace(r[0]) && !IsSpace(r[|r| - 1]))
    ensures r == [] <==> AllSpace(s)
  {
    var t := StripStart(s);
    var r := StripEnd(t);
    StripFacts(s, t, r);
    r
  }

  lemma StripFacts(s: string, t: string, r: string)
    requires t == StripStart(s) && r == StripEnd(t)
    ensures exists i, j :: 0 <= i <= j <= |s| && r == s[i..j] && AllSpace(s[..i]) && AllSpace(s[j..])
    ensures r == [] <==> AllSpace(s)
  {
    var i := |s| - |t|;
    StripSplit(s, t, r, i);
    if t != [] {
      assert s[i] == t[0];
      assert r != [];
    }
    if r == [] {
      SpaceJoin(s, i);
    }
  }

  /** s is white space up to i, then r, then white space. */
  lemma StripSplit(s: string, t: string, r: string, i: nat)
    requires i <= |s| && t == s[i..] && AllSpace(s[..i])
    requires |r| <= |t| && r == t[..|r|] && AllSpace(t[|r|..])
    ensures i + |r| <= |s| && r == s[i..i + |r|] && AllSpace(s[..i]) && AllSpace(s[i + |r|..])
  {
    SliceOfSuffix(s, t, i, |r|);
  }

  lemma SliceOfSuffix(s: string, t: string, i: nat, n: nat)
    requires i <= |s| && t == s[i..] && n <= |t|
    ensures t[..n] == s[i..i + n] && t[n..] == s[i + n..]
  {
  }
}
