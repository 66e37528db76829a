/**
 * The string operations the reply classifier relies on: Python's
 * `str.strip()`, `str.lower()` and the `in` substring test, restricted to
 * ASCII (code points below 128). Characters outside ASCII are neither
 * whitespace nor changed by lower-casing here.
 */
module Text {

  /** Python's `str.isspace()` on ASCII: tab, line feed, vertical tab, form
      feed, carriage return, the four separators 0x1C-0x1F, and space. */
  predicate IsSpace(c: char) {
    ('\t' <= c <= '\r') || ('\U{1C}' <= c <= '\U{1F}') || c == ' '
  }

  predicate AllSpace(s: string) {
    forall i :: 0 <= i < |s| ==> IsSpace(s[i])
  }

  predicate NoSpace(s: string) {
    forall i :: 0 <= i < |s| ==> !IsSpace(s[i])
  }

  /** Drops the leading whitespace: the result is a suffix of `s` that is
      empty or starts with a non-space, and everything dropped is space. */
  function TrimStart(s: string): (r: string)
    ensures |r| <= |s| && r == s[|s| - |r|..]
    ensures forall k :: 0 <= k < |s| - |r| ==> IsSpace(s[k])
    ensures r == [] || !IsSpace(r[0])
  {
    if s != [] && IsSpace(s[0]) then TrimStart(s[1..]) else s
  }

  /** Drops the trailing whitespace: the result is a prefix of `s` that is
      empty or ends with a non-space, and everything dropped is space. */
  function TrimEnd(s: string): (r: string)
    ensures |r| <= |s| && r == s[..|r|]
    ensures forall k :: |r| <= k < |s| ==> IsSpace(s[k])
    ensures r == [] || !IsSpace(r[|r| - 1])
  {
    if s != [] && IsSpace(s[|s| - 1]) then TrimEnd(s[..|s| - 1]) else s
  }

  /** `r` is the part of `s` that starts at index `i`, everything before it
      is whitespace, everything after it is whitespace, and `r` itself neither
      starts nor ends with whitespace. */
  predicate IsStripOf(s: string, i: int, r: string) {
    && 0 <= i && i + |r| <= |s|
    && (forall j :: 0 <= j < |r| ==> s[i + j] == r[j])
    && (forall k :: 0 <= k < i ==> IsSpace(s[k]))
    && (forall k :: i + |r| <= k < |s| ==> IsSpace(s[k]))
    && (r == [] || (!IsSpace(r[0]) && !IsSpace(r[|r| - 1])))
  }

  /** Python's `s.strip()`: `s` without its leading and trailing whitespace. */
  function Strip(s: string): (r: string)
    ensures IsStripOf(s, |s| - |TrimStart(s)|, r)
  {
    StripSplit(s, TrimStart(s), TrimEnd(TrimStart(s)));
    TrimEnd(TrimStart(s))
  }

  lemma StripSplit(s: string, t: string, r: string)
    requires |t| <= |s| && t == s[|s| - |t|..]
    requires forall k :: 0 <= k < |s| - |t| ==> IsSpace(s[k])
    requires t == [] || !IsSpace(t[0])
    requires |r| <= |t| && r == t[..|r|]
    requires forall k :: |r| <= k < |t| ==> IsSpace(t[k])
    requires r == [] || !IsSpace(r[|r| - 1])
    ensures IsStripOf(s, |s| - |t|, r)
  {
    var i := |s| - |t|;
    forall k | i <= k < |s| ensures s[k] == t[k - i] {
    }
    if r != [] {
      assert r[0] == t[0];
    }
  }

  /** Python's `c.lower()` on ASCII: capitals become small letters. */
  function LowerChar(c: char): (d: char)
    ensures 'A' <= c <= 'Z' ==> 'a' <= d <= 'z' && d as int - c as int == 32
    ensures !('A' <= c <= 'Z') ==> d == c
  {
    if 'A' <= c <= 'Z' then (c as int + 32) as char else c
  }

  /** Python's `s.lower()`: every character lower-cased, nothing else changed. */
  function Lower(s: string): (r: string)
    ensures |r| == |s|
    ensures forall i :: 0 <= i < |r| ==> !('A' <= r[i] <= 'Z')
    ensures forall i :: 0 <= i < |s| && !('A' <= s[i] <= 'Z') ==> r[i] == s[i]
    ensures forall i :: 0 <= i < |s| && 'A' <= s[i] <= 'Z' ==> r[i] as int == s[i] as int + 32
  {
    seq(|s|, i requires 0 <= i < |s| => LowerChar(s[i]))
  }

  predicate IsPrefix(w: string, s: string) {
    |w| <= |s| && s[..|w|] == w
  }

  /** Python's `w in s`: `w` occurs in `s` at some position. */
  predicate Contains(s: string, w: string)
    decreases |s|
  {
    IsPrefix(w, s) || (s != [] && Contains(s[1..], w))
  }

  /** `w` occurs in `s` starting at index `i`. */
  predicate OccursAt(s: string, w: string, i: int) {
    0 <= i && i + |w| <= |s| && forall j :: 0 <= j < |w| ==> s[i + j] == w[j]
  }

  /** The recursive substring test agrees with "there is a position where
      `w` occurs". */
  lemma {:induction false} ContainsIffOccurs(s: string, w: string)
    ensures Contains(s, w) <==> exists i {:trigger OccursAt(s, w, i)} :: OccursAt(s, w, i)
    decreases |s|
  {
    if IsPrefix(w, s) {
      assert OccursAt(s, w, 0);
    } else if s == [] {
      assert forall i :: !OccursAt(s, w, i);
    } else {
      ContainsIffOccurs(s[1..], w);
      forall i | OccursAt(s[1..], w, i) ensures OccursAt(s, w, i + 1) {
      }
      forall i | OccursAt(s, w, i) ensures i == 0 || OccursAt(s[1..], w, i - 1) {
      }
      assert !OccursAt(s, w, 0);
    }
  }

  /** An occurrence stays an occurrence when text is added on either side. */
  lemma ContainsExtend(a: string, s: string, b: string, w: string)
    requires Contains(s, w)
    ensures Contains(a + s + b, w)
  {
    ContainsIffOccurs(s, w);
    var i :| OccursAt(s, w, i);
    assert OccursAt(a + s + b, w, |a| + i);
    ContainsIffOccurs(a + s + b, w);
  }

  /** Regrouping a concatenation of five pieces. */
  lemma Regroup(a: string, b: string, c: string, d: string, e: string)
    ensures a + (b + (c + d + e)) == (a + b + c) + d + e
  {
  }

  lemma {:induction false} LowerAppend(a: string, b: string)
    ensures Lower(a + b) == Lower(a) + Lower(b)
  {
  }

  /** Lower-casing never creates or removes whitespace. */
  lemma LowerKeepsSpace(s: string)
    ensures forall i :: 0 <= i < |s| ==> (IsSpace(Lower(s)[i]) <==> IsSpace(s[i]))
  {
  }

  /** Lower-casing a text without whitespace at its ends leaves none there. */
  lemma LowerEnds(t: string)
    requires t == [] || (!IsSpace(t[0]) && !IsSpace(t[|t| - 1]))
    ensures Lower(t) == [] || (!IsSpace(Lower(t)[0]) && !IsSpace(Lower(t)[|t| - 1]))
  {
    LowerKeepsSpace(t);
  }

  lemma {:induction false} TrimStartLead(lead: string, t: string)
    requires AllSpace(lead) && (t == [] || !IsSpace(t[0]))
    ensures TrimStart(lead + t) == t
  {
    if lead != [] {
      assert (lead + t)[1..] == lead[1..] + t;
      TrimStartLead(lead[1..], t);
    } else {
      assert lead + t == t;
    }
  }

  lemma {:induction false} TrimEndTrail(t: string, trail: string)
    requires AllSpace(trail) && (t == [] || !IsSpace(t[|t| - 1]))
    ensures TrimEnd(t + trail) == t
  {
    if trail != [] {
      assert (t + trail)[..|t + trail| - 1] == t + trail[..|trail| - 1];
      TrimEndTrail(t, trail[..|trail| - 1]);
    } else {
      assert t + trail == t;
    }
  }

  /** Stripping removes exactly the surrounding whitespace. */
  lemma StripAround(lead: string, w: string, trail: string)
    requires AllSpace(lead) && AllSpace(trail)
    requires w == [] || (!IsSpace(w[0]) && !IsSpace(w[|w| - 1]))
    ensures Strip(lead + w + trail) == w
  {
    if w == [] {
      assert lead + w + trail == lead + trail;
      TrimStartLead(lead + trail, []);
      assert lead + trail + [] == lead + trail;
      TrimEndTrail([], []);
    } else {
      assert lead + w + trail == lead + (w + trail);
      TrimStartLead(lead, w + trail);
      TrimEndTrail(w, trail);
    }
  }

  lemma ContainsStripped(s: string, i: int, r: string, w: string)
    requires IsStripOf(s, i, r)
    ensures Contains(r, w) ==> Contains(s, w)
  {
    ContainsIffOccurs(r, w);
    if Contains(r, w) {
      var k :| OccursAt(r, w, k);
      assert OccursAt(s, w, i + k);
      ContainsIffOccurs(s, w);
    }
  }

  lemma ContainsUnstripped(s: string, i: int, r: string, w: string)
    requires IsStripOf(s, i, r) && NoSpace(w)
    ensures Contains(s, w) ==> Contains(r, w)
  {
    ContainsIffOccurs(s, w);
    if Contains(s, w) {
      var k :| OccursAt(s, w, k);
      if w == [] {
        assert OccursAt(r, w, 0);
      } else {
        assert s[k] == w[0] && s[k + |w| - 1] == w[|w| - 1];
        assert i <= k && k + |w| <= i + |r|;
        assert OccursAt(r, w, k - i);
      }
      ContainsIffOccurs(r, w);
    }
  }

  /** For a word without whitespace, stripping does not change whether the
      word occurs. */
  lemma ContainsStrip(s: string, w: string)
    requires NoSpace(w)
    ensures Contains(Strip(s), w) <==> Contains(s, w)
  {
    var i := |s| - |TrimStart(s)|;
    ContainsStripped(s, i, Strip(s), w);
    ContainsUnstripped(s, i, Strip(s), w);
  }

  lemma {:induction false} LowerTrimStart(s: string)
    ensures Lower(TrimStart(s)) == TrimStart(Lower(s))
  {
    LowerKeepsSpace(s);
    if s != [] && IsSpace(s[0]) {
      assert Lower(s)[1..] == Lower(s[1..]);
      LowerTrimStart(s[1..]);
    }
  }

  lemma {:induction false} LowerTrimEnd(s: string)
    ensures Lower(TrimEnd(s)) == TrimEnd(Lower(s))
  {
    LowerKeepsSpace(s);
    if s != [] && IsSpace(s[|s| - 1]) {
      assert Lower(s)[..|s| - 1] == Lower(s[..|s| - 1]);
      LowerTrimEnd(s[..|s| - 1]);
    }
  }

  /** Lower-casing and stripping commute, as neither touches what the other
      looks at. */
  lemma LowerStrip(s: string)
    ensures Lower(Strip(s)) == Strip(Lower(s))
  {
    LowerTrimStart(s);
    LowerTrimEnd(TrimStart(s));
  }
}
