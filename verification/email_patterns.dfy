/**
 The two e-mail regular expressions of the forms, each stated as what a
 match means: the existence of split points that cut the input (or some
 substring of it) into the pieces the pattern names.
 */
module EmailPatterns {
  import opened JsString

  /** The character class `[^\s@]`. */
  predicate IsPlainChar(c: char)
  {
    !IsSpace(c) && c != '@'
  }

  /** `t` is a run of `[^\s@]` characters (possibly empty). */
  predicate AllPlain(t: string)
  {
    forall k | 0 <= k < |t| :: IsPlainChar(t[k])
  }

  /** `t` is a run of `\S` characters (possibly empty). */
  predicate NoSpace(t: string)
  {
    forall k | 0 <= k < |t| :: !IsSpace(t[k])
  }

  /** `s[lo..hi]` read position by position. */
  lemma PlainSlice(s: string, lo: int, hi: int)
    requires 0 <= lo <= hi <= |s|
    ensures AllPlain(s[lo..hi]) <==> forall k | lo <= k < hi :: IsPlainChar(s[k])
  {
    if forall k | lo <= k < hi :: IsPlainChar(s[k]) {
      forall k | 0 <= k < hi - lo
        ensures IsPlainChar(s[lo..hi][k])
      {
        assert s[lo..hi][k] == s[lo + k];
      }
    }
  }

  /** `s[lo..hi]` read position by position. */
  lemma NoSpaceSlice(s: string, lo: int, hi: int)
    requires 0 <= lo <= hi <= |s|
    ensures NoSpace(s[lo..hi]) <==> forall k | lo <= k < hi :: !IsSpace(s[k])
  {
    if forall k | lo <= k < hi :: !IsSpace(s[k]) {
      forall k | 0 <= k < hi - lo
        ensures !IsSpace(s[lo..hi][k])
      {
        assert s[lo..hi][k] == s[lo + k];
      }
    }
  }

  /** `s` is X '@' Y '.' Z with the '@' at `i`, the '.' at `j`, and
      X, Y, Z non-empty runs of `[^\s@]`. */
  predicate StrictSplit(s: string, i: int, j: int)
  {
    0 < i && i + 1 < j && j + 1 < |s| && s[i] == '@' && s[j] == '.' &&
    AllPlain(s[..i]) && AllPlain(s[i + 1..j]) && AllPlain(s[j + 1..])
  }

  /** `/^[^\s@]+@[^\s@]+\.[^\s@]+$/.test(s)`: the whole of `s` splits as the
      pattern says. */
  predicate MatchesStrictEmail(s: string)
  {
    exists i, j | 0 <= i < |s| && 0 <= j < |s| :: StrictSplit(s, i, j)
  }

  /** `s[l..r]` is A '@' B '.' C with the '@' at `a`, the '.' at `d`, and
      A, B, C non-empty runs of `\S`. */
  predicate LooseSplit(s: string, l: int, a: int, d: int, r: int)
  {
    0 <= l < a && a + 1 < d && d + 1 < r <= |s| && s[a] == '@' && s[d] == '.' &&
    NoSpace(s[l..a]) && NoSpace(s[a + 1..d]) && NoSpace(s[d + 1..r])
  }

  /** `/\S+@\S+\.\S+/.test(s)`: the pattern is not anchored, so it is enough
      that some substring of `s` splits as the pattern says. */
  predicate MatchesLooseEmail(s: string)
  {
    exists l, a, d, r | 0 <= l < |s| && 0 <= a < |s| && 0 <= d < |s| && 0 <= r <= |s| :: LooseSplit(s, l, a, d, r)
  }

  /** `i` is the one and only position of '@' in `s`. */
  predicate OnlyAtSign(s: string, i: int)
  {
    forall k | 0 <= k < |s| :: s[k] == '@' <==> k == i
  }

  /** The anchored pattern without split points: `s` has '@' at `i` and '.'
      at `j`, the '@' is neither first nor followed directly by the '.', the
      '.' is not last, '@' occurs nowhere else and no character is white space. */
  predicate StrictShape(s: string, i: int, j: int)
  {
    0 < i && i + 1 < j && j + 1 < |s| && s[i] == '@' && s[j] == '.' && OnlyAtSign(s, i) && NoSpace(s)
  }

  /** The anchored pattern accepts exactly the strings of `StrictShape`. */
  lemma StrictEmailCharacterization(s: string)
    ensures MatchesStrictEmail(s) <==> exists i, j | 0 <= i < |s| && 0 <= j < |s| :: StrictShape(s, i, j)
  {
    if MatchesStrictEmail(s) {
      var i, j :| 0 <= i < |s| && 0 <= j < |s| && StrictSplit(s, i, j);
      PlainSlice(s, 0, i);
      PlainSlice(s, i + 1, j);
      PlainSlice(s, j + 1, |s|);
      assert s[..i] == s[0..i] && s[j + 1..] == s[j + 1..|s|];
      forall k | 0 <= k < |s|
        ensures !IsSpace(s[k]) && (s[k] == '@' <==> k == i)
      {
        if k < i {
          assert IsPlainChar(s[k]);
        } else if i < k < j {
          assert IsPlainChar(s[k]);
        } else if j < k {
          assert IsPlainChar(s[k]);
        }
      }
      assert StrictShape(s, i, j);
    }
    if exists i, j | 0 <= i < |s| && 0 <= j < |s| :: StrictShape(s, i, j) {
      var i, j :| 0 <= i < |s| && 0 <= j < |s| && StrictShape(s, i, j);
      PlainSlice(s, 0, i);
      PlainSlice(s, i + 1, j);
      PlainSlice(s, j + 1, |s|);
      assert s[..i] == s[0..i] && s[j + 1..] == s[j + 1..|s|];
      assert StrictSplit(s, i, j);
    }
  }

  /** An address the anchored pattern accepts has no white space and a
      single '@': any two '@' positions coincide. */
  lemma StrictEmailNeedsSingleAt(s: string, k: int, m: int)
    requires MatchesStrictEmail(s)
    requires 0 <= k < |s| && 0 <= m < |s| && s[k] == '@' && s[m] == '@'
    ensures k == m && NoSpace(s)
  {
    StrictEmailCharacterization(s);
    var i, j :| 0 <= i < |s| && 0 <= j < |s| && StrictShape(s, i, j);
    assert s[k] == '@' <==> k == i;
  }

  /** No character of an address the anchored pattern accepts is white space. */
  lemma StrictEmailHasNoSpace(s: string, k: int)
    requires MatchesStrictEmail(s)
    requires 0 <= k < |s|
    ensures !IsSpace(s[k])
  {
    StrictEmailCharacterization(s);
    var i, j :| 0 <= i < |s| && 0 <= j < |s| && StrictShape(s, i, j);
  }

  /** The unanchored pattern only looks at the neighbours of the '@' and the
      '.': a non-space character just before the '@', a '.' at least two
      characters after it with only non-space characters in between, and a
      non-space character just after the '.'. */
  predicate LooseCore(s: string, a: int, d: int)
  {
    0 < a && a + 1 < d && d + 1 < |s| && s[a] == '@' && s[d] == '.' &&
    !IsSpace(s[a - 1]) && NoSpace(s[a + 1..d]) && !IsSpace(s[d + 1])
  }

  /** The unanchored pattern accepts exactly the strings with a `LooseCore`. */
  lemma LooseEmailCharacterization(s: string)
    ensures MatchesLooseEmail(s) <==> exists a, d | 0 <= a < |s| && 0 <= d < |s| :: LooseCore(s, a, d)
  {
    if MatchesLooseEmail(s) {
      var l, a, d, r :| 0 <= l < |s| && 0 <= a < |s| && 0 <= d < |s| && 0 <= r <= |s| && LooseSplit(s, l, a, d, r);
      NoSpaceSlice(s, l, a);
      NoSpaceSlice(s, d + 1, r);
      assert LooseCore(s, a, d);
    }
    if exists a, d | 0 <= a < |s| && 0 <= d < |s| :: LooseCore(s, a, d) {
      var a, d :| 0 <= a < |s| && 0 <= d < |s| && LooseCore(s, a, d);
      NoSpaceSlice(s, a - 1, a);
      NoSpaceSlice(s, d + 1, d + 2);
      assert LooseSplit(s, a - 1, a, d, d + 2);
    }
  }

  /** Every address the anchored pattern accepts, the unanchored one accepts too. */
  lemma StrictImpliesLoose(s: string)
    requires MatchesStrictEmail(s)
    ensures MatchesLooseEmail(s)
  {
    StrictEmailCharacterization(s);
    var i, j :| 0 <= i < |s| && 0 <= j < |s| && StrictShape(s, i, j);
    NoSpaceSlice(s, 0, i);
    NoSpaceSlice(s, i + 1, j);
    NoSpaceSlice(s, j + 1, |s|);
    assert LooseSplit(s, 0, i, j, |s|);
  }

  /** An address the anchored pattern accepts is never blank, so a blank
      check in front of it is subsumed. */
  lemma StrictEmailIsNotBlank(s: string)
    requires MatchesStrictEmail(s)
    ensures !IsBlank(s)
  {
    var i, j :| 0 <= i < |s| && 0 <= j < |s| && StrictSplit(s, i, j);
    assert !IsSpace(s[i]);
  }

  /** Likewise for the unanchored pattern: a match contains an '@'. */
  lemma LooseEmailIsNotBlank(s: string)
    ensures MatchesLooseEmail(s) ==> !IsBlank(s)
  {
    if MatchesLooseEmail(s) {
      var l, a, d, r :| 0 <= l < |s| && 0 <= a < |s| && 0 <= d < |s| && 0 <= r <= |s| && LooseSplit(s, l, a, d, r);
      assert !IsSpace(s[a]);
    }
  }

  /** "a@b.c" is accepted by both patterns. */
  lemma ShortestAddressAccepted()
    ensures MatchesStrictEmail("a@b.c") && MatchesLooseEmail("a@b.c")
  {
    var s := "a@b.c";
    assert s[..1] == "a" && s[2..3] == "b" && s[4..] == "c";
    assert StrictSplit(s, 1, 3);
    StrictImpliesLoose(s);
  }

  /** The patterns differ: "a b@c.d" (white space before the local part) and
      "a@b@c.d" (two '@') are found by the unanchored pattern but rejected by
      the anchored one. */
  lemma PatternsDiffer()
    ensures MatchesLooseEmail("a b@c.d") && !MatchesStrictEmail("a b@c.d")
    ensures MatchesLooseEmail("a@b@c.d") && !MatchesStrictEmail("a@b@c.d")
  {
    var s := "a b@c.d";
    assert s[2..3] == "b" && s[4..5] == "c" && s[6..7] == "d";
    assert LooseSplit(s, 2, 3, 5, 7);
    if MatchesStrictEmail(s) {
      StrictEmailHasNoSpace(s, 1);
      assert false;
    }
    var t := "a@b@c.d";
    assert t[0..3] == "a@b" && t[4..5] == "c" && t[6..7] == "d";
    assert LooseSplit(t, 0, 3, 5, 7);
    if MatchesStrictEmail(t) {
      StrictEmailNeedsSingleAt(t, 1, 3);
      assert false;
    }
  }
}
